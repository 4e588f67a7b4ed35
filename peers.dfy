/** The peer registry: identifier to connection, with the order in which the
    identifiers were added, which is the order the hub lists and visits them. */
module Peers {
  import opened Wire

  datatype Registry = Registry(peers: map<string, ConnId>, order: seq<string>)

  predicate NoDuplicates(s: seq<string>)
  {
    forall i, j :: 0 <= i < j < |s| ==> s[i] != s[j]
  }

  /** `order` lists the registered identifiers, each once. */
  predicate Valid(r: Registry)
  {
    && NoDuplicates(r.order)
    && (forall k :: k in r.order ==> k in r.peers)
    && (forall k :: k in r.peers ==> k in r.order)
  }

  const Empty: Registry := Registry(map[], [])

  /** An identifier is taken while some connection holds it. */
  predicate IsTaken(r: Registry, id: string)
  {
    id in r.peers
  }

  /** Adds a free identifier for `conn`, after all the others. */
  function Add(r: Registry, id: string, conn: ConnId): (r': Registry)
    requires Valid(r) && !IsTaken(r, id)
    ensures Valid(r')
    ensures r'.peers.Keys == r.peers.Keys + {id} && r'.peers[id] == conn
    ensures forall k :: k in r.peers ==> r'.peers[k] == r.peers[k]
  {
    Registry(r.peers[id := conn], r.order + [id])
  }

  /** `Array.prototype.find` over the identifiers: the position of the first
      one held by `conn`. */
  function Find(keys: seq<string>, peers: map<string, ConnId>, conn: ConnId): (r: Option<nat>)
    requires forall k :: k in keys ==> k in peers
    ensures r.Some? ==> r.value < |keys| && peers[keys[r.value]] == conn
                        && forall j :: 0 <= j < r.value ==> peers[keys[j]] != conn
    ensures r.None? ==> forall j :: 0 <= j < |keys| ==> peers[keys[j]] != conn
  {
    if |keys| == 0 then None
    else if peers[keys[0]] == conn then Some(0)
    else match Find(keys[1..], peers, conn)
      case None => None
      case Some(i) => Some(i + 1)
  }

  /** The identifier the close handler removes for `conn`, if any. */
  function Owner(r: Registry, conn: ConnId): Option<string>
    requires Valid(r)
  {
    match Find(r.order, r.peers, conn)
    case None => None
    case Some(i) => Some(r.order[i])
  }

  /** `s` without its element at position `i`. */
  function RemoveAt(s: seq<string>, i: nat): (t: seq<string>)
    requires i < |s|
    ensures |t| == |s| - 1
    ensures forall j :: 0 <= j < i ==> t[j] == s[j]
    ensures forall j :: i <= j < |t| ==> t[j] == s[j + 1]
  {
    s[..i] + s[i + 1..]
  }

  /** Drops the identifier `id` from a valid registry. */
  function Drop(r: Registry, id: string): (r': Registry)
    requires Valid(r) && id in r.peers
    ensures Valid(r')
    ensures r'.peers.Keys == r.peers.Keys - {id}
    ensures forall k :: k in r'.peers ==> r'.peers[k] == r.peers[k]
  {
    var i := IndexOf(r.order, id);
    RemoveAtMembers(r.order, i);
    Registry(r.peers - {id}, RemoveAt(r.order, i))
  }

  /** Removing one position of a list without repetitions removes exactly
      that element. */
  lemma RemoveAtMembers(s: seq<string>, i: nat)
    requires NoDuplicates(s) && i < |s|
    ensures NoDuplicates(RemoveAt(s, i))
    ensures forall k :: k in RemoveAt(s, i) <==> k in s && k != s[i]
  {
    var t := RemoveAt(s, i);
    forall k | k in t
      ensures k in s && k != s[i]
    {
      var j :| 0 <= j < |t| && t[j] == k;
      if j < i { assert s[j] == k; } else { assert s[j + 1] == k; }
    }
    forall k | k in s && k != s[i]
      ensures k in t
    {
      var j :| 0 <= j < |s| && s[j] == k;
      if j < i { assert t[j] == k; } else { assert j != i && t[j - 1] == k; }
    }
  }

  function IndexOf(s: seq<string>, x: string): (i: nat)
    requires x in s
    ensures i < |s| && s[i] == x
  {
    if s[0] == x then 0 else 1 + IndexOf(s[1..], x)
  }

  /** The close handler: the first identifier held by `conn`, if there is
      one, is removed; any other identifier `conn` holds stays. */
  function Remove(r: Registry, conn: ConnId): (r': Registry)
    requires Valid(r)
    ensures Valid(r')
  {
    match Owner(r, conn)
    case None => r
    case Some(id) => Drop(r, id)
  }

  /** `broadcastToAll`: one delivery of `msg` per registered identifier, to the
      connection that holds it, in registry order. */
  function Broadcast(r: Registry, msg: Envelope): (out: seq<Delivery>)
    requires Valid(r)
    ensures |out| == |r.order|
    ensures forall i :: 0 <= i < |out| ==> out[i] == Delivery(r.peers[r.order[i]], msg)
  {
    seq(|r.order|, i requires 0 <= i < |r.order| => Delivery(r.peers[r.order[i]], msg))
  }

  /** The connections that receive a broadcast are exactly the registered ones. */
  lemma BroadcastRecipients(r: Registry, msg: Envelope, conn: ConnId)
    requires Valid(r)
    ensures Delivery(conn, msg) in Broadcast(r, msg) <==> conn in r.peers.Values
    ensures forall d :: d in Broadcast(r, msg) ==> d.envelope == msg
  {
    var out := Broadcast(r, msg);
    if conn in r.peers.Values {
      var k :| k in r.peers && r.peers[k] == conn;
      var i := IndexOf(r.order, k);
      assert out[i] == Delivery(conn, msg);
    }
    if Delivery(conn, msg) in out {
      var i :| 0 <= i < |out| && out[i] == Delivery(conn, msg);
      assert r.order[i] in r.peers;
    }
  }

  /** Every delivery of a broadcast goes to a registered connection, and every
      registered connection gets one. */
  lemma BroadcastCovers(r: Registry, msg: Envelope)
    requires Valid(r)
    ensures forall i :: 0 <= i < |Broadcast(r, msg)| ==> Broadcast(r, msg)[i].to in r.peers.Values
    ensures forall c :: c in r.peers.Values ==> Delivery(c, msg) in Broadcast(r, msg)
  {
    forall c | c in r.peers.Values
      ensures Delivery(c, msg) in Broadcast(r, msg)
    {
      BroadcastRecipients(r, msg, c);
    }
    forall i | 0 <= i < |Broadcast(r, msg)|
      ensures Broadcast(r, msg)[i].to in r.peers.Values
    {
      assert r.order[i] in r.peers;
    }
  }

  /** The identifiers of a valid registry, listed in order, are its key set. */
  lemma OrderIsKeySet(r: Registry)
    requires Valid(r)
    ensures |r.order| == |r.peers|
  {
    SizeOfDistinct(r.order, r.peers.Keys);
  }

  lemma {:induction false} SizeOfDistinct(s: seq<string>, keys: set<string>)
    requires NoDuplicates(s)
    requires forall k :: k in s <==> k in keys
    ensures |s| == |keys|
  {
    if |s| > 0 {
      var rest := s[1..];
      assert forall k :: k in rest <==> k in keys - {s[0]} by {
        forall k
          ensures k in rest <==> k in keys - {s[0]}
        {
          if k in rest {
            var j :| 0 <= j < |rest| && rest[j] == k;
            assert s[j + 1] == k;
          }
          if k in keys - {s[0]} {
            var j :| 0 <= j < |s| && s[j] == k;
            assert j > 0 && rest[j - 1] == k;
          }
        }
      }
      SizeOfDistinct(rest, keys - {s[0]});
    } else {
      assert forall k :: k !in keys;
    }
  }

  /** The close handler removes exactly the first identifier `conn` holds and
      keeps the others in their order; a connection holding none changes nothing. */
  lemma RemoveFirstOwner(r: Registry, conn: ConnId)
    requires Valid(r)
    ensures Owner(r, conn).None? ==> Remove(r, conn) == r && conn !in r.peers.Values
    ensures Owner(r, conn).Some? ==>
              exists i :: 0 <= i < |r.order| && r.order[i] == Owner(r, conn).value
                          && r.peers[r.order[i]] == conn
                          && (forall j :: 0 <= j < i ==> r.peers[r.order[j]] != conn)
                          && Remove(r, conn).peers == r.peers - {r.order[i]}
                          && Remove(r, conn).order == RemoveAt(r.order, i)
  {
    match Find(r.order, r.peers, conn)
    case None =>
    case Some(i) =>
      var id := r.order[i];
      assert IndexOf(r.order, id) == i by {
        var n := IndexOf(r.order, id);
        assert r.order[n] == r.order[i];
      }
  }

  /** Two identifiers added one after the other, in that order. */
  lemma TwoAdded(c1: ConnId, c2: ConnId, first: string, second: string)
    requires first != second
    ensures Add(Add(Empty, first, c1), second, c2)
            == Registry(map[first := c1, second := c2], [first, second])
  {
  }

  /** A broadcast over two identifiers reaches their connections in order. */
  lemma BroadcastOfTwo(c1: ConnId, c2: ConnId, first: string, second: string, msg: Envelope)
    requires first != second
    ensures Broadcast(Registry(map[first := c1, second := c2], [first, second]), msg)
            == [Delivery(c1, msg), Delivery(c2, msg)]
  {
    var r := Registry(map[first := c1, second := c2], [first, second]);
    assert Valid(r);
    var out := Broadcast(r, msg);
    assert out[0] == Delivery(c1, msg) && out[1] == Delivery(c2, msg);
  }

  lemma RemoveKeepsLaterIdentifier(conn: ConnId, first: string, second: string)
    requires first != second
    ensures Remove(Add(Add(Empty, first, conn), second, conn), conn)
            == Registry(map[second := conn], [second])
  {
    TwoAdded(conn, conn, first, second);
    var r := Registry(map[first := conn, second := conn], [first, second]);
    assert Owner(r, conn) == Some(first) by {
      assert Find(r.order, r.peers, conn) == Some(0);
    }
    assert Drop(r, first) == Registry(map[second := conn], [second]) by {
      assert IndexOf(r.order, first) == 0;
      assert RemoveAt(r.order, 0) == [second];
      assert r.peers - {first} == map[second := conn];
    }
  }

  // The registry's check and the close handler as the JavaScript runs them.

  /** Own and inherited property names of a plain JavaScript object: looking
      one of these up in the registry yields a truthy value although no peer
      holds it. */
  const ObjectPrototypeNames: set<string> :=
    {"constructor", "__proto__", "__defineGetter__", "__defineSetter__",
     "__lookupGetter__", "__lookupSetter__", "hasOwnProperty", "isPrototypeOf",
     "propertyIsEnumerable", "toString", "toLocaleString", "valueOf"}

  /** `if (peers[data.peerID])`: true for a registered identifier and for any
      name the object inherits. */
  predicate IsTakenAsWritten(r: Registry, id: string)
  {
    id in r.peers || id in ObjectPrototypeNames
  }

  /** A fresh hub refuses the identifier "toString" although nobody holds it. */
  lemma PrototypeNameRefused()
    ensures IsTakenAsWritten(Empty, "toString") && !IsTaken(Empty, "toString")
  {
  }

  /** `if (username) delete peers[username]`: the empty identifier is falsy,
      so when it is the one `find` picks nothing is removed. */
  function RemoveAsWritten(r: Registry, conn: ConnId): (r': Registry)
    requires Valid(r)
    ensures Valid(r')
  {
    match Owner(r, conn)
    case None => r
    case Some(id) => if id == "" then r else Drop(r, id)
  }

  /** A connection registered as "" that closes leaves "" taken for good,
      while the corrected handler frees it. */
  lemma EmptyIdentifierNeverFreed(conn: ConnId)
    ensures var r := Add(Empty, "", conn);
            && RemoveAsWritten(r, conn) == r
            && IsTaken(RemoveAsWritten(r, conn), "")
            && !IsTaken(Remove(r, conn), "")
  {
    var r := Add(Empty, "", conn);
    assert r.order == [""];
    assert Find(r.order, r.peers, conn) == Some(0);
  }
}
