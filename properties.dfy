/** What the hub guarantees, stated over the message handler and the close
    handler. */
module HubProperties {
  import opened Wire
  import opened Peers
  import opened FileStore
  import opened Relay

  /** Registering a taken identifier answers the sender alone with an error
      and changes nothing. */
  lemma RegisterTaken(s: HubState, conn: ConnId, id: string, writeOk: bool)
    requires Good(s) && id in s.reg.peers
    ensures Step(s, conn, Register(id), writeOk) == Outcome(s, [Delivery(conn, Error(PeerIdTaken))])
  {
  }

  /** Registering a free identifier adds it for the sender; then every
      registered connection, the sender's included, receives a peer list
      naming each registered identifier once; last, the sender alone
      receives the file list. */
  lemma RegisterFresh(s: HubState, conn: ConnId, id: string, writeOk: bool)
    requires Good(s) && id !in s.reg.peers
    ensures var o := Step(s, conn, Register(id), writeOk);
            o.state.files == s.files && o.state.reg.peers == s.reg.peers[id := conn]
    ensures var o := Step(s, conn, Register(id), writeOk);
            && |o.out| == |o.state.reg.peers| + 1
            && o.out[|o.out| - 1] == Delivery(conn, FileList(Listing(s.files)))
    ensures var o := Step(s, conn, Register(id), writeOk);
            forall i :: 0 <= i < |o.out| - 1 ==>
              && o.out[i].envelope == PeerList(o.state.reg.order)
              && o.out[i].to in o.state.reg.peers.Values
    ensures var o := Step(s, conn, Register(id), writeOk);
            forall c :: c in o.state.reg.peers.Values ==> Delivery(c, PeerList(o.state.reg.order)) in o.out
    ensures var reg := Step(s, conn, Register(id), writeOk).state.reg;
            (forall k :: k in reg.order <==> k in reg.peers) && NoDuplicates(reg.order)
  {
    var reg := Add(s.reg, id, conn);
    RegisterFreshOutcome(s, conn, id, writeOk);
    PeerListThenFileList(reg, conn, FileList(Listing(s.files)));
    OrderIsKeySet(reg);
  }

  /** The deliveries of a fresh registration: the peer list to everyone, then
      one more envelope to the sender. */
  lemma PeerListThenFileList(reg: Registry, conn: ConnId, last: Envelope)
    requires Peers.Valid(reg)
    ensures var out := Broadcast(reg, PeerList(reg.order)) + [Delivery(conn, last)];
            && |out| == |reg.order| + 1
            && out[|out| - 1] == Delivery(conn, last)
            && (forall i :: 0 <= i < |out| - 1 ==>
                  out[i].envelope == PeerList(reg.order) && out[i].to in reg.peers.Values)
            && (forall c :: c in reg.peers.Values ==> Delivery(c, PeerList(reg.order)) in out)
  {
    var sent := Broadcast(reg, PeerList(reg.order));
    var out := sent + [Delivery(conn, last)];
    BroadcastCovers(reg, PeerList(reg.order));
    forall i | 0 <= i < |out| - 1
      ensures out[i].envelope == PeerList(reg.order) && out[i].to in reg.peers.Values
    {
      assert out[i] == sent[i];
    }
    forall c | c in reg.peers.Values
      ensures Delivery(c, PeerList(reg.order)) in out
    {
      assert Delivery(c, PeerList(reg.order)) in sent;
    }
  }

  lemma RegisterFreshOutcome(s: HubState, conn: ConnId, id: string, writeOk: bool)
    requires Good(s) && id !in s.reg.peers
    ensures var reg := Add(s.reg, id, conn);
            Step(s, conn, Register(id), writeOk)
            == Outcome(HubState(reg, s.files),
                       Broadcast(reg, PeerList(reg.order)) + [Delivery(conn, FileList(Listing(s.files)))])
  {
  }

  /** Registration is refused exactly when the identifier is taken; otherwise
      the identifier then belongs to the sender. */
  lemma RegisterRefusedIffTaken(s: HubState, conn: ConnId, id: string, writeOk: bool)
    requires Good(s)
    ensures var o := Step(s, conn, Register(id), writeOk);
            && |o.out| > 0
            && (o.out[0].envelope == Error(PeerIdTaken) <==> id in s.reg.peers)
            && (id !in s.reg.peers ==> o.state.reg.peers[id] == conn)
  {
    var o := Step(s, conn, Register(id), writeOk);
    if id !in s.reg.peers {
      var reg := o.state.reg;
      assert reg.order[|reg.order| - 1] == id;
      assert o.out[0] == Broadcast(reg, PeerList(reg.order))[0];
    }
  }

  /** No message reassigns or removes an identifier, and a refused
      registration leaves the registry as it was. */
  lemma MappingsAreStable(s: HubState, conn: ConnId, env: Envelope, writeOk: bool)
    requires Good(s)
    ensures var o := Step(s, conn, env, writeOk);
            (forall k :: k in s.reg.peers ==> k in o.state.reg.peers && o.state.reg.peers[k] == s.reg.peers[k])
            && (o.state.reg.peers.Keys - s.reg.peers.Keys <= if env.Register? then {env.peerID} else {})
            && (env.Register? && env.peerID in s.reg.peers ==> o.state.reg == s.reg)
  {
  }

  /** After a connection closes, an identifier it held first is free again:
      registering it from any connection succeeds. */
  lemma CloseFreesIdentifier(s: HubState, conn: ConnId, other: ConnId, writeOk: bool)
    requires Good(s) && Owner(s.reg, conn).Some?
    ensures var id := Owner(s.reg, conn).value;
            var s' := CloseStep(s, conn);
            var o := Step(s', other, Register(id), writeOk);
            && id !in s'.reg.peers
            && o.state.reg.peers == s'.reg.peers[id := other]
            && forall i :: 0 <= i < |o.out| ==> !o.out[i].envelope.Error?
  {
    var id := Owner(s.reg, conn).value;
    RemoveFirstOwner(s.reg, conn);
    var s' := CloseStep(s, conn);
    var o := Step(s', other, Register(id), writeOk);
    forall i | 0 <= i < |o.out|
      ensures !o.out[i].envelope.Error?
    {
      if i < |o.out| - 1 {
        assert o.out[i] == Broadcast(o.state.reg, PeerList(o.state.reg.order))[i];
      }
    }
  }

  /** A connection that registered two identifiers releases only the first
      when it closes; the second stays registered to it. */
  lemma CloseKeepsLaterIdentifier(files: Store, conn: ConnId, first: string, second: string)
    requires first != second
    ensures var s := HubState(Add(Add(Empty, first, conn), second, conn), files);
            CloseStep(s, conn) == HubState(Registry(map[second := conn], [second]), files)
  {
    RemoveKeepsLaterIdentifier(conn, first, second);
  }

  /** A connection that holds no identifier closes without effect. */
  lemma CloseUnregistered(s: HubState, conn: ConnId)
    requires Good(s) && conn !in s.reg.peers.Values
    ensures CloseStep(s, conn) == s
  {
    RemoveFirstOwner(s.reg, conn);
  }

  /** A tag the switch does not handle, and only such a tag, gets exactly one
      error, "Unknown request type", to the sender, and changes nothing. */
  lemma UnknownTypeIsolation(s: HubState, conn: ConnId, env: Envelope, writeOk: bool)
    requires Good(s) && WellFormed(env)
    ensures var o := Step(s, conn, env, writeOk);
            TypeOf(env) !in RequestTypes <==> o.out == [Delivery(conn, Error(UnknownRequestType))]
    ensures TypeOf(env) !in RequestTypes ==> Step(s, conn, env, writeOk).state == s
  {
    var o := Step(s, conn, env, writeOk);
    HandledTags(env);
    assert UnknownRequestType[0] == 'U';
    match env
    case Register(id) =>
      if id !in s.reg.peers {
        assert o.out[|o.out| - 1].envelope.FileList?;
      }
    case FileRequest(filename) =>
      assert FileNotFound(filename)[0] == 'F';
    case FilePreview(filename) =>
      assert FileNotFound(filename)[0] == 'F';
    case FileUpload(_, _) =>
      if writeOk && |o.out| > 0 {
        assert o.out[0].envelope == FileListUpdate;
      }
    case Chat(_, _) =>
      if |o.out| > 0 {
        assert o.out[0].envelope == env;
      }
    case _ =>
  }

  /** A chat envelope goes unchanged to every registered connection, the
      sender's included, to no other, and changes nothing. */
  lemma ChatRelayedToAll(s: HubState, conn: ConnId, sender: string, content: string, writeOk: bool)
    requires Good(s)
    ensures var o := Step(s, conn, Chat(sender, content), writeOk);
            && o.state == s
            && (forall d :: d in o.out ==> d.envelope == Chat(sender, content))
            && (forall c :: Delivery(c, Chat(sender, content)) in o.out <==> c in s.reg.peers.Values)
  {
    forall c
      ensures Delivery(c, Chat(sender, content)) in Broadcast(s.reg, Chat(sender, content))
              <==> c in s.reg.peers.Values
    {
      BroadcastRecipients(s.reg, Chat(sender, content), c);
    }
  }

  lemma ChatIsBroadcast(s: HubState, conn: ConnId, sender: string, content: string, writeOk: bool)
    requires Good(s)
    ensures Step(s, conn, Chat(sender, content), writeOk) == Outcome(s, Broadcast(s.reg, Chat(sender, content)))
  {
  }

  /** Peers A and B register on two connections; A's chat reaches both of
      them, once each, and nobody else. */
  lemma ChatScenario(files: Store, a: ConnId, b: ConnId, idA: string, idB: string, text: string)
    requires a != b && idA != idB
    ensures var s1 := Step(HubState(Empty, files), a, Register(idA), true).state;
            var s2 := Step(s1, b, Register(idB), true).state;
            Step(s2, a, Chat(idA, text), true).out
            == [Delivery(a, Chat(idA, text)), Delivery(b, Chat(idA, text))]
  {
    var s1 := Step(HubState(Empty, files), a, Register(idA), true).state;
    assert s1.reg == Add(Empty, idA, a);
    var s2 := Step(s1, b, Register(idB), true).state;
    assert s2.reg == Add(s1.reg, idB, b);
    TwoAdded(a, b, idA, idB);
    ChatIsBroadcast(s2, a, idA, text, true);
    BroadcastOfTwo(a, b, idA, idB, Chat(idA, text));
  }

  /** The list request answers the sender alone with one record per file; `version` is always 1. */
  lemma FileListAnswersSender(s: HubState, conn: ConnId, writeOk: bool)
    requires Good(s)
    ensures var o := Step(s, conn, FileListRequest, writeOk);
            && o.state == s && |o.out| == 1 && o.out[0].to == conn
            && o.out[0].envelope.FileList?
            && |o.out[0].envelope.files| == |s.files|
            && (forall name :: name in s.files <==> FileRecord(name, 1) in o.out[0].envelope.files)
            && (forall r :: r in o.out[0].envelope.files ==> r.version == 1)
  {
  }

  /** A successful upload overwrites that one file and tells every registered
      connection that the list changed; a failed one does nothing at all. */
  lemma UploadOutcome(s: HubState, conn: ConnId, filename: string, fileContent: Base64, writeOk: bool)
    requires Good(s)
    ensures var o := Step(s, conn, FileUpload(filename, fileContent), writeOk);
            && o.state.reg == s.reg
            && (writeOk ==>
                  && o.state.files == s.files[filename := Decode(fileContent)]
                  && (forall d :: d in o.out ==> d.envelope == FileListUpdate)
                  && (forall c :: Delivery(c, FileListUpdate) in o.out <==> c in s.reg.peers.Values))
            && (!writeOk ==> o.state == s && o.out == [])
  {
    if writeOk {
      forall c
        ensures Delivery(c, FileListUpdate) in Broadcast(s.reg, FileListUpdate) <==> c in s.reg.peers.Values
      {
        BroadcastRecipients(s.reg, FileListUpdate, c);
      }
    }
  }

  /** Any peer that downloads a file after a successful upload gets exactly
      the uploaded bytes back. */
  lemma UploadThenRequest(s: HubState, uploader: ConnId, reader: ConnId,
                          filename: string, content: seq<byte>, writeOk: bool)
    requires Good(s)
    ensures var s' := Step(s, uploader, FileUpload(filename, Encode(content)), true).state;
            var o := Step(s', reader, FileRequest(filename), writeOk);
            && o.out == [Delivery(reader, FileResponse(filename, Encode(content)))]
            && Decode(o.out[0].envelope.fileContent) == content
  {
    UploadThenDownload(s.files, filename, content);
  }

  /** A file that is missing gets the same error from a download and from a
      preview request, and the error goes to the sender alone. */
  lemma MissingFile(s: HubState, conn: ConnId, filename: string, writeOk: bool)
    requires Good(s) && filename !in s.files
    ensures Step(s, conn, FileRequest(filename), writeOk).out == [Delivery(conn, Error(FileNotFound(filename)))]
    ensures Step(s, conn, FilePreview(filename), writeOk).out == [Delivery(conn, Error(FileNotFound(filename)))]
  {
  }

  /** Every error the hub sends goes to the connection that caused it. */
  lemma ErrorsAreUnicast(s: HubState, conn: ConnId, env: Envelope, writeOk: bool)
    requires Good(s)
    ensures forall d :: d in Step(s, conn, env, writeOk).out && d.envelope.Error? ==> d.to == conn
  {
    var o := Step(s, conn, env, writeOk);
    forall d | d in o.out && d.envelope.Error?
      ensures d.to == conn
    {
      var i :| 0 <= i < |o.out| && o.out[i] == d;
    }
  }
}
