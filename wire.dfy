/** The wire vocabulary of the relay hub: connection handles, file records and
    the envelopes that peers and the hub exchange. */
module Wire {

  newtype byte = x: int | 0 <= x < 256

  datatype Option<+T> = None | Some(value: T)

  /** A live connection, compared by identity only. */
  type ConnId = nat

  /** File content as it travels inside an envelope. On the wire it is base64
      text; the model keeps the bytes that text stands for, which makes the
      codec lossless by construction. */
  datatype Base64 = Base64Of(bytes: seq<byte>)

  function Encode(b: seq<byte>): Base64
  {
    Base64Of(b)
  }

  function Decode(e: Base64): seq<byte>
  {
    e.bytes
  }

  /** One entry of a `file-list`. */
  datatype FileRecord = FileRecord(filename: string, version: int)

  /** Every envelope type of the protocol, in both directions, plus `Other`
      for a `type` tag the protocol does not define. In `FilePreviewResponse`
      the fields `preview` and `explanation` travel as `content` and `message`. */
  datatype Envelope =
    | Register(peerID: string)
    | PeerList(peers: seq<string>)
    | FileListRequest
    | FileList(files: seq<FileRecord>)
    | FileListUpdate
    | FileRequest(filename: string)
    | FileResponse(filename: string, fileContent: Base64)
    | FileUpload(filename: string, fileContent: Base64)
    | FilePreview(filename: string)
    | FilePreviewResponse(filename: string, preview: Option<Base64>,
                          format: Option<string>, explanation: Option<string>)
    | Chat(sender: string, content: string)
    | Error(message: string)
    | Other(tag: string)

  /** One outbound envelope on its way to one connection. */
  datatype Delivery = Delivery(to: ConnId, envelope: Envelope)

  /** The `type` field of an envelope. */
  function TypeOf(e: Envelope): string
  {
    match e
    case Register(_) => "register"
    case PeerList(_) => "peer-list"
    case FileListRequest => "file-list-request"
    case FileList(_) => "file-list"
    case FileListUpdate => "file-list-update"
    case FileRequest(_) => "file-request"
    case FileResponse(_, _) => "file-response"
    case FileUpload(_, _) => "file-upload"
    case FilePreview(_) => "file-preview"
    case FilePreviewResponse(_, _, _, _) => "file-preview-response"
    case Chat(_, _) => "chat"
    case Error(_) => "error"
    case Other(t) => t
  }

  /** The tags the protocol defines. */
  const WireTypes: set<string> :=
    {"register", "peer-list", "file-list-request", "file-list", "file-list-update",
     "file-request", "file-response", "file-upload", "file-preview",
     "file-preview-response", "chat", "error"}

  /** The tags the hub's dispatch switch handles. */
  const RequestTypes: set<string> :=
    {"register", "file-list-request", "file-request", "file-upload", "chat", "file-preview"}

  /** `Other` stands only for tags outside the protocol. */
  predicate WellFormed(e: Envelope)
  {
    e.Other? ==> e.tag !in WireTypes
  }

  /** The handled tags are those of the six request envelopes. */
  lemma HandledTags(e: Envelope)
    requires WellFormed(e)
    ensures TypeOf(e) in RequestTypes <==>
              e.Register? || e.FileListRequest? || e.FileRequest? ||
              e.FileUpload? || e.Chat? || e.FilePreview?
  {
  }

  const PeerIdTaken: string := "PeerID already taken"
  const UnknownRequestType: string := "Unknown request type"
  const PreviewUnsupported: string := "Preview not supported for this file type. Please download."

  function FileNotFound(filename: string): string
  {
    "File not found: " + filename
  }
}
