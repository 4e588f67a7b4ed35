# Relay hub model

A Dafny model of the relay hub of a small peer-to-peer file-sharing system
(`server/server.js`). Peers connect over WebSocket and register an
identifier. The hub keeps two pieces of state:

- the peer registry, identifier to connection;
- a shared-file directory, file name to bytes.

Each inbound envelope is dispatched on its `type`. It can:

- register a peer;
- list, download, upload or preview a file;
- relay a chat message.

The reply goes either to the sender or to every registered connection. When
a connection closes, the identifier it holds is released.

The model is organised as follows.

- `Wire` (wire.dfy): the envelopes, file records, connection handles and
  the message texts. Base64 content is abstracted as the bytes it stands
  for, so `Decode(Encode(b)) == b` holds by construction.
- `Names` (names.dfy): the order in which the directory listing comes back,
  byte-wise (`strcmp`) order, which for UTF-8 names is code-point order. It
  also holds `SortedNames`, which lists a set of names in that order.
- `PathExt` (path.dfy): Node's POSIX `path.extname` and the lower-casing
  step of the preview test, and the four preview formats.
- `FileStore` (filestore.dfy): the directory as a map, the `file-list`
  records, the download reply (`sendFile`), the preview reply
  (`sendFilePreview`) and the store after an upload (`saveFile`).
- `Peers` (peers.dfy): the registry, as a map together with the order in
  which identifiers were added. It holds:
  - the reverse lookup (`find`) and removal that the close handler performs;
  - `broadcastToAll`;
  - the two handlers as the JavaScript actually runs them (see
    "## Findings").
- `Relay` (relay.dfy): the pure specification of one event.
  - `Step` dispatches one envelope; `CloseStep` closes a connection.
  - The `Hub` class holds the same state in mutable fields. Its methods
    (`Dispatch`, `Close`, `BroadcastToAll`, `SaveFile`) are proved to agree
    with `Step` and `CloseStep`.
- `HubProperties` (properties.dfy): what the hub guarantees, stated as
  lemmas over `Step` and `CloseStep`.

A delivery names the connection it goes to. A broadcast is one delivery per
registered identifier: `Object.values(peers)` visits one entry per key, so a
connection holding two identifiers receives a broadcast twice. The model
visits the registry in registration order; for integer-like identifiers
JavaScript uses another order, and "## Left out" says what that changes.
The outcome of the asynchronous upload write is an input flag, `writeOk`.
Every event is treated as atomic.

## Model

| member | source | states |
|---|---|---|
| Wire.HandledTags | server/server.js:54-94 | the switch handles exactly the six request types: register, file-list-request, file-request, file-upload, chat, file-preview |
| Names.LessIrreflexive | server/server.js:42 | no name sorts before itself in listing order |
| Names.LessTransitive | server/server.js:42 | listing order is transitive |
| Names.LessTotal | server/server.js:42 | any two distinct names are ordered one way or the other |
| Names.LeastExists | server/server.js:42 | a non-empty set of names has a first name in listing order |
| Names.LeastUnique | server/server.js:42 | that first name is unique |
| Names.LeastPrecedesRest | server/server.js:42 | the first name sorts before every other name of the set |
| Names.SortedNames | server/server.js:42 | the listing holds each name of the directory once, and nothing else, in strictly increasing order |
| Names.SortedHasNoDuplicates | server/server.js:42 | a strictly sorted listing repeats no name |
| PathExt.StripTrailingSlashes | server/server.js:134 | the result is the path with its trailing `/` removed, and it does not end in `/` |
| PathExt.AfterLastSlash | server/server.js:134 | the result is the suffix after the last `/` and holds no `/` |
| PathExt.LastDot | server/server.js:134 | gives the position of the last `.`, or None when there is no `.` |
| PathExt.Extname | server/server.js:134 | the extension is empty, or it is a `.` followed by characters that are neither `.` nor `/` |
| PathExt.ToLower | server/server.js:134 | lower-casing keeps the length, leaves no capital letter, and keeps every character that is not a capital |
| PathExt.BasenameOfPlainName | server/server.js:134 | a name without `/` is its own last component |
| PathExt.LastDotOf | server/server.js:134 | in `stem.ext`, where ext has no dot, the last dot is the one before ext |
| PathExt.ExtnameOfName | server/server.js:134 | `stem.ext` has extension `.ext` when stem is a non-empty name without `/` (and the whole name is not `..`) |
| PathExt.NoSlashIn | server/server.js:134 | helper of PathExt.ExtnameOfName: `stem.ext` has no `/` when neither part has one |
| PathExt.ExtnameOfBasename | server/server.js:134 | only the last component of a path decides its extension |
| PathExt.AfterSlashOf | server/server.js:134 | the last component of `dir/name` is `name` when name has no `/` |
| PathExt.ExtnameInDirectory | server/server.js:134 | `dir/stem.ext` has extension `.ext`, whatever the directory part |
| PathExt.ExtnameWithoutDot | server/server.js:134 | a name with no dot has no extension |
| PathExt.ExtnameOfDotfile | server/server.js:134 | a hidden file `.rest` has no extension |
| PathExt.PreviewableByExtension | server/server.js:134-137 | a file is previewed exactly when its lower-cased extension is a preview format |
| PathExt.ExtensionDecides | server/server.js:134-137 | `stem.ext` is previewed exactly when the lower-cased `.ext` is a preview format |
| PathExt.NotAFormat | server/server.js:135 | helper of PathExt.NotPreviewableOther: an extension whose second character is neither `j` nor `p` is not a preview format |
| PathExt.FormatShape | server/server.js:135 | helper of PathExt.PreviewableFormat: each format is a dot followed by lower-case letters |
| PathExt.LowerOfLower | server/server.js:134 | helper of PathExt.PreviewableFormat: lower-casing a text without capitals changes nothing |
| PathExt.FormatIsLower | server/server.js:134-135 | helper of PathExt.PreviewableFormat: each format is already lower case |
| PathExt.ExtnameOfFormat | server/server.js:134-135 | a plain name ending in a format has that format as its extension |
| PathExt.PreviewableFormat | server/server.js:134-137 | a plain name ending in any of .jpg, .jpeg, .png, .pdf is previewed, with that format |
| PathExt.LowerDot | server/server.js:134 | helper of PathExt.CaseInsensitive: lower-casing keeps a leading dot |
| PathExt.LowerTwiceAfterDot | server/server.js:134 | helper of PathExt.CaseInsensitive: lower-casing twice is lower-casing once |
| PathExt.LowerKeepsSeparatorsOut | server/server.js:134 | helper of PathExt.CaseInsensitive: lower-casing introduces no `.` and no `/` |
| PathExt.CaseInsensitive | server/server.js:134-137 | `stem.EXT` is previewed exactly when `stem.ext` is |
| PathExt.NotPreviewableOther | server/server.js:134-137 | a name whose extension does not start with j or p, in either case, is never previewed |
| PathExt.NotPreviewableCsv | server/server.js:134-137 | a `.csv` file is never previewed |
| PathExt.NotPreviewableDotfile | server/server.js:134-137 | a hidden file such as `.png` alone is never previewed |
| PathExt.ShortNotAFormat | server/server.js:135 | helper of PathExt.NotPreviewableDotfile: the empty extension is not a preview format |
| FileStore.Listing | server/server.js:41-47 | the file list has one record per file, each name once, in listing order, each with version 1 |
| FileStore.Records | server/server.js:42-45 | gives one record of version 1 per name, in the same order |
| FileStore.RecordsOfNames | server/server.js:42-45 | a record of version 1 is present exactly for the listed names |
| FileStore.ListingHasNoDuplicates | server/server.js:42 | no file name appears twice in the file list |
| FileStore.FileReply | server/server.js:120-130 | a present file gets a file-response whose content decodes to its bytes; a missing one gets "File not found: <name>" |
| FileStore.PreviewReply | server/server.js:131-162 | covers every preview reply: missing gives the not-found error; present and previewable gives content and the lower-cased extension as format, with no message; otherwise null content, no format, and the explanation |
| FileStore.Saved | server/server.js:107-117 | a successful write maps the name to the decoded bytes and keeps every other file; a failed one changes nothing |
| FileStore.UploadThenDownload | server/server.js:107-130 | after a successful upload, the download returns exactly the uploaded content |
| FileStore.LastWriterWins | server/server.js:109 | of two uploads of one name, the second decides the content |
| FileStore.PreviewOfFormat | server/server.js:131-146 | a present file in one of the four formats gets its content and that format |
| FileStore.PreviewOfCsv | server/server.js:147-156 | a present CSV file gets null content and the explanation |
| FileStore.PreviewOfMissing | server/server.js:157-161 | a missing file gets "File not found: <name>" |
| Peers.Add | server/server.js:63 | registering a free identifier adds it for the connection, keeps every other mapping, and keeps the registry well-formed |
| Peers.Find | server/server.js:98 | `find` returns the first identifier, in registration order, held by the connection, or none when it holds none |
| Peers.RemoveAt | server/server.js:101 | removing one position keeps the elements before it and shifts the ones after it |
| Peers.RemoveAtMembers | server/server.js:101 | removing one position of a list without repetitions removes exactly that element |
| Peers.Drop | server/server.js:101 | `delete` removes exactly that identifier and keeps the other mappings |
| Peers.Remove | server/server.js:97-103 | the close handler leaves a well-formed registry |
| Peers.Broadcast | server/server.js:36-38 | sends one delivery of the message per registered identifier, to the connection holding it, in registration order |
| Peers.BroadcastRecipients | server/server.js:36-38 | a connection receives a broadcast exactly when it holds an identifier, and every delivery carries the message |
| Peers.BroadcastCovers | server/server.js:36-38 | every broadcast delivery goes to a registered connection, and each registered connection gets one |
| Peers.OrderIsKeySet | server/server.js:65 | the peer list names as many identifiers as are registered |
| Peers.SizeOfDistinct | server/server.js:65 | a list without repetitions of exactly the keys has as many elements as there are keys |
| Peers.RemoveFirstOwner | server/server.js:97-103 | close removes exactly the first identifier, in registration order, that the connection holds, and keeps the others in order; a connection holding none changes nothing |
| Peers.TwoAdded | server/server.js:63 | two registrations in turn give both mappings, listed in that order |
| Peers.BroadcastOfTwo | server/server.js:37 | a broadcast over two identifiers reaches their two connections, in order |
| Peers.RemoveKeepsLaterIdentifier | server/server.js:97-103 | a connection holding two identifiers keeps the second after it closes |
| Peers.PrototypeNameRefused | server/server.js:56 | the check as written refuses "toString" on an empty registry, although nobody holds it |
| Peers.RemoveAsWritten | server/server.js:97-103 | the close handler as written also leaves a well-formed registry |
| Peers.EmptyIdentifierNeverFreed | server/server.js:98-102 | as written, a connection registered as "" leaves "" taken after it closes; the corrected handler frees it |
| Relay.Step | server/server.js:54-94 | every message keeps the registry well-formed and never changes an existing mapping; every error goes to the sender |
| Relay.CloseStep | server/server.js:97-103 | close keeps the registry well-formed and the directory unchanged, and sends nothing |
| Relay.Hub.constructor | server/server.js:33 | a hub starts with no peers and the directory as it finds it |
| Relay.Hub.BroadcastToAll | server/server.js:36-38 | the loop sends exactly the deliveries of `Broadcast` on the current registry |
| Relay.Hub.SaveFile | server/server.js:107-117 | the directory becomes `Saved`; the file-list-update goes to everyone when the write succeeds, and nothing is sent when it fails |
| Relay.Hub.Dispatch | server/server.js:51-95 | the new state and the deliveries are exactly those of `Step` |
| Relay.Hub.Close | server/server.js:97-103 | the new state is exactly `CloseStep` of the old one |
| HubProperties.RegisterTaken | server/server.js:56-60 | a taken identifier gets one "PeerID already taken" error to the sender, and nothing changes |
| HubProperties.RegisterFresh | server/server.js:62-66 | a free identifier is added for the sender. Every registered connection, sender included, then gets a peer list naming each registered identifier once. Last, the sender alone gets the file list |
| HubProperties.PeerListThenFileList | server/server.js:65-66 | the peer list goes to every registered connection and only to them, then one envelope goes to the sender |
| HubProperties.RegisterRefusedIffTaken | server/server.js:56-63 | registration is refused exactly when the identifier is taken; otherwise the identifier then belongs to the sender |
| HubProperties.MappingsAreStable | server/server.js:54-94 | no message reassigns or removes an identifier. Only register adds one, and only its own. A refused register changes nothing |
| HubProperties.CloseFreesIdentifier | server/server.js:97-103 | after close, the identifier the connection held first is free, and registering it from any connection succeeds without error |
| HubProperties.CloseKeepsLaterIdentifier | server/server.js:97-103 | a connection that registered two identifiers releases only the first when it closes |
| HubProperties.CloseUnregistered | server/server.js:97-103 | closing a connection that holds no identifier changes nothing |
| HubProperties.UnknownTypeIsolation | server/server.js:90-93 | an unhandled type, and only such, gets exactly "Unknown request type" to the sender, and nothing changes |
| HubProperties.ChatRelayedToAll | server/server.js:82-84 | a chat envelope goes unchanged to exactly the registered connections, and nothing changes |
| HubProperties.ChatIsBroadcast | server/server.js:82-84 | chat is a broadcast of the inbound envelope |
| HubProperties.ChatScenario | server/server.js:55-84 | two peers register on two connections; the first one's chat reaches both, once each, in order |
| HubProperties.FileListAnswersSender | server/server.js:70-72 | a list request answers the sender alone with one version-1 record per file |
| HubProperties.UploadOutcome | server/server.js:78-80 | a successful upload overwrites that file and tells every registered connection; a failed upload does nothing and sends nothing |
| HubProperties.UploadThenRequest | server/server.js:74-80 | any peer that downloads after a successful upload gets exactly the uploaded bytes |
| HubProperties.MissingFile | server/server.js:74-76 | a missing file gets the same not-found error from a download and from a preview, sent to the sender |
| HubProperties.ErrorsAreUnicast | server/server.js:54-94 | every error the hub sends goes to the connection that caused it |

## Left out

- HTTP and transport: Express static serving, the two `app.get("/")` routes, `app.listen` and the WebSocket server set-up (server/server.js:1-32) are transport plumbing.
- Malformed messages: a message that is not JSON (server/server.js:52 has no try/catch) and missing fields are not modelled; envelopes arrive already decoded. For example, an absent `peerID` would be stored under the key "undefined".
- Relay.Step: the peer list names the identifiers in registration order. `Object.keys` (server/server.js:65) lists integer-like keys such as "1" or "42" first, in ascending numeric order, and only then the others in insertion order. The model does not capture that order. The set of identifiers in the peer list is the same.
- Peers.Broadcast: deliveries go out in registration order. `Object.values` (server/server.js:37) reaches peers with integer-like identifiers first, in numeric order. The model does not capture that delivery order. The recipients, and how many copies each receives, are the same.
- Peers.Find: returns the first identifier a connection holds in registration order. `Object.keys(peers).find` (server/server.js:98) searches integer-like keys first. So when one connection holds several identifiers and one of them is integer-like, the source's close frees a different one. Example: a connection registers "b", then "1". The source's close frees "1"; the model's (Peers.Remove, Relay.CloseStep, Relay.Hub.Close) frees "b". A connection holding one identifier, or none integer-like, frees the same one in both.
- Wire.Decode: base64 is abstract, so lenient decoding of non-canonical text in `Buffer.from(…, "base64")` is not modelled.
- Real file-system details are not modelled; the directory is a map from names to bytes. In particular:
  - `path.join` resolution and path traversal;
  - `existsSync` being true for directories, and for the empty name, which names the directory itself;
  - sub-directories appearing in `readdirSync`;
  - Windows path rules.
- FileStore.Saved: the write is atomic. Partial writes on failure and the ordering of the asynchronous callback against later messages are not modelled.
- Logging and start-up directory creation: `console` output and `mkdirSync` (server/server.js:10-13) have no observable effect on peers.
- PathExt.ToLower: lower-cases ASCII letters only, where `toLowerCase` is full Unicode. No non-ASCII character lower-cases to one of `.jpegnpdf`, so membership in the four formats, and therefore every reply, is the same.
- FileStore.Listing: the listing is in byte-wise order, the order that `readdirSync` returns on POSIX systems. Other platforms' order is not modelled.
- Wire.Envelope: a chat envelope carries `sender` and `content` only. Extra fields a client adds are relayed by the source but not modelled.
- The clients, the browser script and the command-line peer, are not part of this model.

## Findings

| source | as written | input that shows it | evidently intended | confidence | as-written member | corrected member |
|---|---|---|---|---|---|---|
| server/server.js:56 | `if (peers[data.peerID])` also finds properties inherited from `Object.prototype` | on a fresh hub, register "toString" (or "constructor", "__proto__", …): the reply is "PeerID already taken" although nobody holds it | refuse an identifier only when some connection holds it | high, not executed | Peers.PrototypeNameRefused | HubProperties.RegisterRefusedIffTaken |
| server/server.js:99 | `if (username)` treats the found identifier "" as not found | register "" on a connection, then close it: "" stays taken and can never be registered again | delete whatever identifier `find` returned | high, not executed | Peers.EmptyIdentifierNeverFreed | HubProperties.CloseFreesIdentifier |

The hub model (`Relay.Step`, `Relay.Hub`) uses the corrected behaviour:
`Peers.IsTaken` and `Peers.Remove`.
