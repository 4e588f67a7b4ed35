/** The relay hub: the dispatch of one inbound envelope, the close handler,
    and the `Hub` object that keeps the registry and the directory. */
module Relay {
  import opened Wire
  import opened Peers
  import opened FileStore

  /** Everything the hub keeps between events. */
  datatype HubState = HubState(reg: Registry, files: Store)

  /** What one inbound envelope does: the new state and the deliveries, in
      the order they are sent. */
  datatype Outcome = Outcome(state: HubState, out: seq<Delivery>)

  predicate Good(s: HubState)
  {
    Peers.Valid(s.reg)
  }

  /** The `file-list` envelope for the current directory (`sendFileList`). */
  function FileListOf(files: Store): Envelope
  {
    FileList(Listing(files))
  }

  /** The message handler. `writeOk` is the outcome of the file write an
      upload performs. */
  function Step(s: HubState, conn: ConnId, env: Envelope, writeOk: bool): (o: Outcome)
    requires Good(s)
    ensures Good(o.state)
    ensures forall k :: k in s.reg.peers ==> k in o.state.reg.peers && o.state.reg.peers[k] == s.reg.peers[k]
    ensures forall i :: 0 <= i < |o.out| && o.out[i].envelope.Error? ==> o.out[i].to == conn
  {
    match env
    case Register(id) =>
      if IsTaken(s.reg, id) then Outcome(s, [Delivery(conn, Error(PeerIdTaken))])
      else
        var reg := Add(s.reg, id, conn);
        Outcome(HubState(reg, s.files),
                Broadcast(reg, PeerList(reg.order)) + [Delivery(conn, FileListOf(s.files))])
    case FileListRequest =>
      Outcome(s, [Delivery(conn, FileListOf(s.files))])
    case FileRequest(filename) =>
      Outcome(s, [Delivery(conn, FileReply(s.files, filename))])
    case FileUpload(filename, fileContent) =>
      Outcome(HubState(s.reg, Saved(s.files, filename, fileContent, writeOk)),
              if writeOk then Broadcast(s.reg, FileListUpdate) else [])
    case Chat(_, _) =>
      Outcome(s, Broadcast(s.reg, env))
    case FilePreview(filename) =>
      Outcome(s, [Delivery(conn, PreviewReply(s.files, filename))])
    case _ =>
      Outcome(s, [Delivery(conn, Error(UnknownRequestType))])
  }

  /** The close handler. It sends nothing. */
  function CloseStep(s: HubState, conn: ConnId): (s': HubState)
    requires Good(s)
    ensures Good(s') && s'.files == s.files
  {
    HubState(Remove(s.reg, conn), s.files)
  }

  /** The hub process: the registry and the directory, updated in place. */
  class Hub {
    var peers: map<string, ConnId>
    var order: seq<string>
    var files: Store

    function Reg(): Registry
      reads this
    {
      Registry(peers, order)
    }

    function State(): HubState
      reads this
    {
      HubState(Reg(), files)
    }

    ghost predicate Valid()
      reads this
    {
      Peers.Valid(Reg())
    }

    /** A hub starts with no peers and the directory as it finds it. */
    constructor (initial: Store)
      ensures Valid() && State() == HubState(Empty, initial)
    {
      peers := map[];
      order := [];
      files := initial;
    }

    /** `broadcastToAll`: sends `msg` to the connection of every registered
        identifier, in registry order. */
    method BroadcastToAll(msg: Envelope) returns (out: seq<Delivery>)
      requires Valid()
      ensures out == Broadcast(Reg(), msg)
    {
      out := [];
      var i := 0;
      while i < |order|
        invariant 0 <= i <= |order|
        invariant |out| == i
        invariant forall j :: 0 <= j < i ==> out[j] == Delivery(peers[order[j]], msg)
      {
        out := out + [Delivery(peers[order[i]], msg)];
        i := i + 1;
      }
    }

    /** `saveFile`: stores the decoded content and, when the write succeeded,
        tells every peer that the list changed. */
    method SaveFile(filename: string, fileContent: Base64, writeOk: bool) returns (out: seq<Delivery>)
      requires Valid()
      modifies this`files
      ensures Valid()
      ensures files == Saved(old(files), filename, fileContent, writeOk)
      ensures out == if writeOk then Broadcast(Reg(), FileListUpdate) else []
    {
      if writeOk {
        files := files[filename := Decode(fileContent)];
        out := BroadcastToAll(FileListUpdate);
      } else {
        out := [];
      }
    }

    /** The message handler, one envelope at a time. */
    method Dispatch(conn: ConnId, env: Envelope, writeOk: bool) returns (out: seq<Delivery>)
      requires Valid()
      modifies this
      ensures Valid()
      ensures State() == Step(old(State()), conn, env, writeOk).state
      ensures out == Step(old(State()), conn, env, writeOk).out
    {
      match env
      case Register(id) =>
        if id in peers {
          out := [Delivery(conn, Error(PeerIdTaken))];
        } else {
          peers := peers[id := conn];
          order := order + [id];
          var sent := BroadcastToAll(PeerList(order));
          out := sent + [Delivery(conn, FileListOf(files))];
        }
      case FileListRequest =>
        out := [Delivery(conn, FileListOf(files))];
      case FileRequest(filename) =>
        out := [Delivery(conn, FileReply(files, filename))];
      case FileUpload(filename, fileContent) =>
        out := SaveFile(filename, fileContent, writeOk);
      case Chat(_, _) =>
        out := BroadcastToAll(env);
      case FilePreview(filename) =>
        out := [Delivery(conn, PreviewReply(files, filename))];
      case _ =>
        out := [Delivery(conn, Error(UnknownRequestType))];
    }

    /** The close handler: deletes the first identifier `conn` holds. */
    method Close(conn: ConnId)
      requires Valid()
      modifies this
      ensures Valid()
      ensures State() == CloseStep(old(State()), conn)
    {
      RemoveFirstOwner(Reg(), conn);
      var found := Find(order, peers, conn);
      match found
      case None =>
      case Some(i) =>
        var id := order[i];
        peers := peers - {id};
        order := order[..i] + order[i + 1..];
    }
  }
}
