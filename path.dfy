/** The file-name extension test of the preview request: Node's POSIX
    `path.extname` followed by lower-casing, and the formats the hub previews. */
module PathExt {
  import opened Wire

  /** `p` without its trailing `/` characters. */
  function StripTrailingSlashes(p: string): (q: string)
    ensures |q| <= |p| && q == p[..|q|]
    ensures q == [] || q[|q| - 1] != '/'
    ensures forall i :: |q| <= i < |p| ==> p[i] == '/'
  {
    if |p| > 0 && p[|p| - 1] == '/' then StripTrailingSlashes(p[..|p| - 1]) else p
  }

  /** The part of `q` after its last `/`, or all of `q` when it has none. */
  function AfterLastSlash(q: string): (c: string)
    ensures |c| <= |q| && c == q[|q| - |c|..]
    ensures forall i :: 0 <= i < |c| ==> c[i] != '/'
    ensures |c| < |q| ==> q[|q| - |c| - 1] == '/'
  {
    if |q| == 0 then []
    else if q[|q| - 1] == '/' then []
    else AfterLastSlash(q[..|q| - 1]) + [q[|q| - 1]]
  }

  /** The last path component, trailing separators ignored. */
  function Basename(p: string): string
  {
    AfterLastSlash(StripTrailingSlashes(p))
  }

  /** The position of the last `.` in `c`. */
  function LastDot(c: string): (d: Option<nat>)
    ensures d.Some? ==> d.value < |c| && c[d.value] == '.'
                        && forall i :: d.value < i < |c| ==> c[i] != '.'
    ensures d.None? ==> forall i :: 0 <= i < |c| ==> c[i] != '.'
  {
    if |c| == 0 then None
    else if c[|c| - 1] == '.' then Some(|c| - 1)
    else LastDot(c[..|c| - 1])
  }

  /** `path.extname`: the last component from its last `.` on; empty when the
      component has no `.`, when its only `.` is its first character, and for
      the component `..`. */
  function Extname(p: string): (e: string)
    ensures e == [] || (e[0] == '.' && forall i :: 0 < i < |e| ==> e[i] != '.' && e[i] != '/')
  {
    var c := Basename(p);
    match LastDot(c)
    case None => []
    case Some(d) => if d == 0 || c == ".." then [] else c[d..]
  }

  /** `toLowerCase` restricted to ASCII letters; every other character is kept. */
  function Lower(ch: char): char
  {
    if 'A' <= ch <= 'Z' then (ch as int + 32) as char else ch
  }

  function ToLower(s: string): (r: string)
    ensures |r| == |s|
    ensures forall i :: 0 <= i < |r| ==> !('A' <= r[i] <= 'Z')
    ensures forall i :: 0 <= i < |r| && !('A' <= s[i] <= 'Z') ==> r[i] == s[i]
  {
    seq(|s|, i requires 0 <= i < |s| => Lower(s[i]))
  }

  const PreviewFormats: seq<string> := [".jpg", ".jpeg", ".png", ".pdf"]

  /** The lower-cased extension the preview request tests. */
  function PreviewExtension(name: string): string
  {
    ToLower(Extname(name))
  }

  predicate Previewable(name: string)
  {
    PreviewExtension(name) in PreviewFormats
  }

  /** A name that has no `/` is its own last component. */
  lemma {:induction false} BasenameOfPlainName(p: string)
    requires forall i :: 0 <= i < |p| ==> p[i] != '/'
    ensures Basename(p) == p
  {
    assert p == [] || p[|p| - 1] != '/';
    assert StripTrailingSlashes(p) == p;
    assert |AfterLastSlash(p)| == |p|;
  }

  lemma {:induction false} LastDotOf(stem: string, ext: string)
    requires forall i :: 0 <= i < |ext| ==> ext[i] != '.'
    ensures LastDot(stem + "." + ext) == Some(|stem|)
  {
    var p := stem + "." + ext;
    assert p[|stem|] == '.';
    assert forall i :: |stem| < i < |p| ==> p[i] == ext[i - |stem| - 1];
  }

  lemma NoSlashIn(stem: string, ext: string)
    requires forall i :: 0 <= i < |stem| ==> stem[i] != '/'
    requires forall i :: 0 <= i < |ext| ==> ext[i] != '/'
    ensures forall i :: 0 <= i < |stem + "." + ext| ==> (stem + "." + ext)[i] != '/'
  {
    var p := stem + "." + ext;
    forall i | 0 <= i < |p| ensures p[i] != '/' {
      if i < |stem| { assert p[i] == stem[i]; }
      else if i > |stem| { assert p[i] == ext[i - |stem| - 1]; }
    }
  }

  /** A name without `/` whose stem is not empty has the extension after its
      last dot, unless the whole name is `..`. */
  lemma {:induction false} ExtnameOfName(stem: string, ext: string)
    requires |stem| > 0
    requires forall i :: 0 <= i < |stem| ==> stem[i] != '/'
    requires forall i :: 0 <= i < |ext| ==> ext[i] != '/' && ext[i] != '.'
    requires !(stem == "." && ext == "")
    ensures Extname(stem + "." + ext) == "." + ext
  {
    var p := stem + "." + ext;
    NoSlashIn(stem, ext);
    BasenameOfPlainName(p);
    LastDotOf(stem, ext);
    assert p[|stem|..] == "." + ext;
  }

  /** Only the last component of a path decides its extension. */
  lemma ExtnameOfBasename(p: string)
    ensures Extname(p) == Extname(Basename(p))
  {
    BasenameOfPlainName(Basename(p));
  }

  lemma {:induction false} AfterSlashOf(dir: string, name: string)
    requires forall i :: 0 <= i < |name| ==> name[i] != '/'
    ensures AfterLastSlash(dir + "/" + name) == name
    decreases |name|
  {
    var q := dir + "/" + name;
    if |name| == 0 {
      assert q[|q| - 1] == '/';
    } else {
      var init := name[..|name| - 1];
      assert q[..|q| - 1] == dir + "/" + init;
      AfterSlashOf(dir, init);
      assert name == init + [name[|name| - 1]];
    }
  }

  /** A file name inside a directory, `dir/stem.ext`, has the extension of
      `stem.ext`, whatever the directory part. */
  lemma ExtnameInDirectory(dir: string, stem: string, ext: string)
    requires |stem| > 0
    requires forall i :: 0 <= i < |stem| ==> stem[i] != '/'
    requires forall i :: 0 <= i < |ext| ==> ext[i] != '/' && ext[i] != '.'
    requires !(stem == "." && ext == "")
    ensures Extname(dir + "/" + stem + "." + ext) == "." + ext
  {
    var name := stem + "." + ext;
    var p := dir + "/" + name;
    assert dir + "/" + stem + "." + ext == p;
    NoSlashIn(stem, ext);
    assert StripTrailingSlashes(p) == p by {
      assert p[|p| - 1] == name[|name| - 1];
    }
    AfterSlashOf(dir, name);
    ExtnameOfBasename(p);
    ExtnameOfName(stem, ext);
  }

  /** A name with no `.` at all has no extension. */
  lemma {:induction false} ExtnameWithoutDot(p: string)
    requires forall i :: 0 <= i < |p| ==> p[i] != '.'
    ensures Extname(p) == ""
  {
    var q := StripTrailingSlashes(p);
    var c := AfterLastSlash(q);
    forall i | 0 <= i < |c|
      ensures c[i] != '.'
    {
      assert c[i] == q[|q| - |c| + i];
      assert q[|q| - |c| + i] == p[|q| - |c| + i];
    }
    assert LastDot(c).None?;
  }

  /** A hidden file such as `.bashrc` has no extension. */
  lemma {:induction false} ExtnameOfDotfile(rest: string)
    requires forall i :: 0 <= i < |rest| ==> rest[i] != '/' && rest[i] != '.'
    ensures Extname("." + rest) == ""
  {
    var p := "." + rest;
    assert forall i :: 0 <= i < |p| ==> p[i] != '/' by {
      forall i | 0 <= i < |p| ensures p[i] != '/' {
        if i > 0 { assert p[i] == rest[i - 1]; }
      }
    }
    BasenameOfPlainName(p);
    LastDotOf("", rest);
    assert "" + "." + rest == p;
  }

  /** A non-empty file name without `/`. */
  predicate PlainName(stem: string)
  {
    |stem| > 0 && forall i :: 0 <= i < |stem| ==> stem[i] != '/'
  }

  /** Whether a name is previewed depends on its extension alone. */
  lemma PreviewableByExtension(p: string, e: string)
    requires Extname(p) == e
    ensures Previewable(p) <==> ToLower(e) in PreviewFormats
  {
  }

  /** Whether a plain name is previewed depends on the lower-cased text after
      its last dot alone. */
  lemma ExtensionDecides(stem: string, ext: string)
    requires PlainName(stem)
    requires 0 < |ext| && forall i :: 0 <= i < |ext| ==> ext[i] != '/' && ext[i] != '.'
    ensures Previewable(stem + "." + ext) <==> ToLower("." + ext) in PreviewFormats
  {
    ExtnameOfName(stem, ext);
    PreviewableByExtension(stem + "." + ext, "." + ext);
  }

  /** An extension whose first letter is neither `j` nor `p` is not a format. */
  lemma NotAFormat(e: string)
    requires |e| > 1 && e[1] != 'j' && e[1] != 'p'
    ensures e !in PreviewFormats
  {
    assert PreviewFormats[0][1] == 'j' && PreviewFormats[1][1] == 'j';
    assert PreviewFormats[2][1] == 'p' && PreviewFormats[3][1] == 'p';
  }

  lemma FormatShape(k: nat)
    requires k < |PreviewFormats|
    ensures var f := PreviewFormats[k];
            && 1 < |f| && f == "." + f[1..]
            && (forall i :: 0 < i < |f| ==> 'a' <= f[i] <= 'z')
  {
  }

  /** Lower-casing leaves a text without capitals as it is. */
  lemma LowerOfLower(s: string)
    requires forall i :: 0 <= i < |s| ==> !('A' <= s[i] <= 'Z')
    ensures ToLower(s) == s
  {
  }

  lemma FormatIsLower(k: nat)
    requires k < |PreviewFormats|
    ensures ToLower(PreviewFormats[k]) == PreviewFormats[k]
  {
    FormatShape(k);
    LowerOfLower(PreviewFormats[k]);
  }

  /** A plain name that ends in one of the formats has that format as its
      extension. */
  lemma ExtnameOfFormat(stem: string, k: nat)
    requires PlainName(stem) && k < |PreviewFormats|
    ensures Extname(stem + PreviewFormats[k]) == PreviewFormats[k]
  {
    var f := PreviewFormats[k];
    FormatShape(k);
    var ext := f[1..];
    assert forall i :: 0 <= i < |ext| ==> ext[i] != '/' && ext[i] != '.' by {
      forall i | 0 <= i < |ext| ensures ext[i] != '/' && ext[i] != '.' {
        assert ext[i] == f[i + 1];
      }
    }
    assert stem + f == stem + "." + ext;
    ExtnameOfName(stem, ext);
  }

  /** Every one of the formats is previewed, whatever the name before it. */
  lemma PreviewableFormat(stem: string, k: nat)
    requires PlainName(stem) && k < |PreviewFormats|
    ensures PreviewExtension(stem + PreviewFormats[k]) == PreviewFormats[k]
    ensures Previewable(stem + PreviewFormats[k])
  {
    ExtnameOfFormat(stem, k);
    FormatIsLower(k);
  }

  lemma LowerDot(ext: string)
    ensures ToLower("." + ext) == "." + ToLower(ext)
  {
  }

  lemma LowerTwiceAfterDot(ext: string)
    ensures ToLower("." + ToLower(ext)) == ToLower("." + ext)
  {
    LowerDot(ext);
    LowerDot(ToLower(ext));
  }

  /** Lower-casing introduces no `.` and no `/`. */
  lemma LowerKeepsSeparatorsOut(ext: string)
    requires forall i :: 0 <= i < |ext| ==> ext[i] != '/' && ext[i] != '.'
    ensures forall i :: 0 <= i < |ToLower(ext)| ==> ToLower(ext)[i] != '/' && ToLower(ext)[i] != '.'
  {
  }

  /** The test ignores the case of the extension: `photo.JPG` is previewed
      exactly when `photo.jpg` is. */
  lemma CaseInsensitive(stem: string, ext: string)
    requires PlainName(stem)
    requires 0 < |ext| && forall i :: 0 <= i < |ext| ==> ext[i] != '/' && ext[i] != '.'
    ensures Previewable(stem + "." + ext) <==> Previewable(stem + "." + ToLower(ext))
  {
    LowerKeepsSeparatorsOut(ext);
    LowerTwiceAfterDot(ext);
    ExtensionDecides(stem, ext);
    ExtensionDecides(stem, ToLower(ext));
  }

  /** An extension that does not start with `j` or `p`, in either case, is
      never previewed. */
  lemma NotPreviewableOther(stem: string, ext: string)
    requires PlainName(stem)
    requires 0 < |ext| && forall i :: 0 <= i < |ext| ==> ext[i] != '/' && ext[i] != '.'
    requires ext[0] !in "jJpP"
    ensures !Previewable(stem + "." + ext)
  {
    ExtensionDecides(stem, ext);
    LowerDot(ext);
    assert ToLower(ext)[0] == Lower(ext[0]);
    NotAFormat("." + ToLower(ext));
  }

  /** A CSV file is never previewed. */
  lemma NotPreviewableCsv(stem: string)
    requires PlainName(stem)
    ensures !Previewable(stem + ".csv")
  {
    var csv := "csv";
    assert stem + ".csv" == stem + "." + csv;
    assert csv[0] == 'c' && csv[1] == 's' && csv[2] == 'v';
    NotPreviewableOther(stem, csv);
  }

  /** A hidden file such as `.png` alone has no extension, so it has no preview. */
  lemma NotPreviewableDotfile(rest: string)
    requires forall i :: 0 <= i < |rest| ==> rest[i] != '/' && rest[i] != '.'
    ensures !Previewable("." + rest)
  {
    var e := Extname("." + rest);
    ExtnameOfDotfile(rest);
    PreviewableByExtension("." + rest, e);
    ShortNotAFormat(ToLower(e));
  }

  /** Every format has a dot and at least one letter. */
  lemma ShortNotAFormat(e: string)
    requires |e| <= 1
    ensures e !in PreviewFormats
  {
    forall k | 0 <= k < |PreviewFormats|
      ensures PreviewFormats[k] != e
    {
      FormatShape(k);
    }
  }
}
