/** The hub's shared-file directory and the replies built from it: the file
    list, the download reply and the preview reply. */
module FileStore {
  import opened Wire
  import Names
  import opened PathExt

  /** The directory: file name to file bytes. */
  type Store = map<string, seq<byte>>

  /** The records of a `file-list`: one per file, in directory listing order,
      each with the placeholder version 1. */
  function Listing(store: Store): (files: seq<FileRecord>)
    ensures |files| == |store|
    ensures forall i :: 0 <= i < |files| ==> files[i].version == 1
    ensures forall name :: name in store <==> FileRecord(name, 1) in files
    ensures forall i, j :: 0 <= i < j < |files| ==> Names.Less(files[i].filename, files[j].filename)
  {
    var names := Names.SortedNames(store.Keys);
    RecordsOfNames(names);
    Records(names)
  }

  /** One record of version 1 per name, in the same order. */
  function Records(names: seq<string>): (files: seq<FileRecord>)
    ensures |files| == |names|
    ensures forall i :: 0 <= i < |files| ==> files[i] == FileRecord(names[i], 1)
  {
    seq(|names|, i requires 0 <= i < |names| => FileRecord(names[i], 1))
  }

  lemma RecordsOfNames(names: seq<string>)
    ensures forall name :: name in names <==> FileRecord(name, 1) in Records(names)
  {
    var files := Records(names);
    forall name | name in names
      ensures FileRecord(name, 1) in files
    {
      var i :| 0 <= i < |names| && names[i] == name;
      assert files[i] == FileRecord(name, 1);
    }
  }

  /** Each file appears in the list exactly once. */
  lemma ListingHasNoDuplicates(store: Store)
    ensures forall i, j :: 0 <= i < j < |Listing(store)| ==>
              Listing(store)[i].filename != Listing(store)[j].filename
  {
    var files := Listing(store);
    forall i, j | 0 <= i < j < |files|
      ensures files[i].filename != files[j].filename
    {
      Names.LessIrreflexive(files[i].filename);
    }
  }

  /** The reply to a download request. */
  function FileReply(store: Store, filename: string): (e: Envelope)
    ensures e.FileResponse? <==> filename in store
    ensures e.FileResponse? ==> e.filename == filename && Decode(e.fileContent) == store[filename]
    ensures !e.FileResponse? ==> e == Error(FileNotFound(filename))
  {
    if filename in store then FileResponse(filename, Encode(store[filename]))
    else Error(FileNotFound(filename))
  }

  /** The reply to a preview request. A present file gets a preview response;
      it carries the content and its format exactly when the lower-cased
      extension is one of the preview formats, and otherwise an explanation. */
  function PreviewReply(store: Store, filename: string): (e: Envelope)
    ensures filename !in store ==> e == Error(FileNotFound(filename))
    ensures filename in store ==> e.FilePreviewResponse? && e.filename == filename
    ensures e.FilePreviewResponse? ==>
              (e.preview.Some? <==> Previewable(filename))
              && (e.preview.Some? <==> e.format.Some?)
              && (e.preview.Some? <==> e.explanation.None?)
    ensures e.FilePreviewResponse? && e.preview.Some? ==>
              Decode(e.preview.value) == store[filename]
              && e.format.value in PreviewFormats
              && e.format.value == ToLower(Extname(filename))
    ensures e.FilePreviewResponse? && e.preview.None? ==>
              e.explanation == Some(PreviewUnsupported)
  {
    if filename in store then
      var format := PreviewExtension(filename);
      if format in PreviewFormats then
        FilePreviewResponse(filename, Some(Encode(store[filename])), Some(format), None)
      else
        FilePreviewResponse(filename, None, None, Some(PreviewUnsupported))
    else
      Error(FileNotFound(filename))
  }

  /** The directory after an upload: overwritten when the write succeeded,
      untouched when it failed. */
  function Saved(store: Store, filename: string, fileContent: Base64, writeOk: bool): (s: Store)
    ensures writeOk ==> s.Keys == store.Keys + {filename} && s[filename] == Decode(fileContent)
    ensures !writeOk ==> s == store
    ensures forall other :: other != filename && other in store ==> other in s && s[other] == store[other]
  {
    if writeOk then store[filename := Decode(fileContent)] else store
  }

  /** Whatever was there before, a download after a successful upload returns
      exactly the uploaded bytes. */
  lemma UploadThenDownload(store: Store, filename: string, content: seq<byte>)
    ensures FileReply(Saved(store, filename, Encode(content), true), filename)
            == FileResponse(filename, Encode(content))
  {
  }

  /** Last writer wins: of two successful uploads of one name, the second decides. */
  lemma LastWriterWins(store: Store, filename: string, first: Base64, second: Base64)
    ensures Saved(Saved(store, filename, first, true), filename, second, true)
            == Saved(store, filename, second, true)
  {
  }

  /** A present file in one of the formats is previewed with its content and
      format, whatever the name before the extension. */
  lemma PreviewOfFormat(store: Store, stem: string, k: nat)
    requires PlainName(stem) && k < |PreviewFormats| && stem + PreviewFormats[k] in store
    ensures var name := stem + PreviewFormats[k];
            PreviewReply(store, name)
            == FilePreviewResponse(name, Some(Encode(store[name])), Some(PreviewFormats[k]), None)
  {
    PreviewableFormat(stem, k);
  }

  /** A present CSV file gets the explanation and no content. */
  lemma PreviewOfCsv(store: Store, stem: string)
    requires PlainName(stem) && stem + ".csv" in store
    ensures var name := stem + ".csv";
            PreviewReply(store, name) == FilePreviewResponse(name, None, None, Some(PreviewUnsupported))
  {
    NotPreviewableCsv(stem);
  }

  /** A missing file gets the not-found error. */
  lemma PreviewOfMissing(store: Store, name: string)
    requires name !in store
    ensures PreviewReply(store, name) == Error("File not found: " + name)
  {
  }
}
