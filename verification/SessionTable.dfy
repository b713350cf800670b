/** The master's session indices and the tunnel address pool (master/session/session.go). */
module SessionTable {
  import opened Wrappers
  import opened Bytes
  import opened Crypto

  // A random 16-byte identifier, read as a number.
  type SessionId = nat

  datatype Addr = Addr(host: IPv4, port: uint16)

  datatype Session = Session(id: SessionId, client: Addr, ip: IPv4, key: Key, dataPort: Option<uint16>)

  /** The three indices of the table as one value. */
  datatype Indices = Indices(
    byID: map<SessionId, Session>, byTunIP: map<IPv4, Session>, byClient: map<Addr, Session>)

  const EMPTY_INDICES := Indices(map[], map[], map[])

  function Added(t: Indices, s: Session): Indices {
    Indices(t.byID[s.id := s], t.byTunIP[s.ip := s], t.byClient[s.client := s])
  }

  function Removed(t: Indices, id: SessionId): Indices {
    if id !in t.byID then t
    else
      var s := t.byID[id];
      Indices(t.byID - {id}, t.byTunIP - {s.ip}, t.byClient - {s.client})
  }

  class Table {
    var byID: map<SessionId, Session>
    var byTunIP: map<IPv4, Session>
    var byClient: map<Addr, Session>

    function View(): Indices
      reads this
    {
      Indices(byID, byTunIP, byClient)
    }

    constructor ()
      ensures View() == EMPTY_INDICES
    {
      byID, byTunIP, byClient := map[], map[], map[];
    }

    method Add(s: Session)
      modifies this
      ensures View() == Added(old(View()), s)
    {
      byID := byID[s.id := s];
      byTunIP := byTunIP[s.ip := s];
      byClient := byClient[s.client := s];
    }

    /** Drops a session from all three indices and hands it to the removal hook. */
    method Remove(id: SessionId) returns (hook: Option<Session>)
      modifies this
      ensures View() == Removed(old(View()), id)
      ensures hook == if id in old(byID) then Some(old(byID)[id]) else None
    {
      if id !in byID {
        return None;
      }
      var s := byID[id];
      byID := byID - {id};
      byTunIP := byTunIP - {s.ip};
      byClient := byClient - {s.client};
      return Some(s);
    }
  }

  /** Removing the session just added leaves no trace, if nothing was overwritten. */
  lemma RemovedUndoesAdded(t: Indices, s: Session)
    requires s.id !in t.byID && s.ip !in t.byTunIP && s.client !in t.byClient
    ensures Removed(Added(t, s), s.id) == t
  {
    var r := Removed(Added(t, s), s.id);
    assert r.byID == t.byID;
    assert r.byTunIP == t.byTunIP;
    assert r.byClient == t.byClient;
  }

  /**
   The pool: `available` is the queue the source keeps. `issued` and `returned`
   record every address handed out and every address put back, in order.
   */
  datatype PoolState = PoolState(available: seq<IPv4>, issued: seq<IPv4>, returned: seq<IPv4>)

  function Allocated(p: PoolState): PoolState
    requires p.available != []
  {
    PoolState(p.available[1..], p.issued + [p.available[0]], p.returned)
  }

  function Released(p: PoolState, ip: IPv4): PoolState {
    PoolState(p.available + [ip], p.issued, p.returned + [ip])
  }

  class IPPool {
    var available: seq<IPv4>
    ghost var issued: seq<IPv4>
    ghost var returned: seq<IPv4>
    ghost const initial: seq<IPv4>

    ghost function View(): PoolState
      reads this
    {
      PoolState(available, issued, returned)
    }

    /** The pool reissues in the order in which addresses came in. */
    ghost predicate Valid()
      reads this
    {
      issued + available == initial + returned
    }

    constructor (addresses: seq<IPv4>)
      ensures Valid() && initial == addresses
      ensures View() == PoolState(addresses, [], [])
    {
      available, issued, returned, initial := addresses, [], [], addresses;
    }

    method Allocate() returns (r: Option<IPv4>)
      requires Valid()
      modifies this
      ensures Valid()
      ensures old(available) == [] ==> r == None && View() == old(View())
      ensures old(available) != [] ==> r == Some(old(available)[0]) && View() == Allocated(old(View()))
    {
      if available == [] {
        return None;
      }
      r := Some(available[0]);
      issued := issued + [available[0]];
      available := available[1..];
      assert issued + available == old(issued + available);
    }

    method Release(ip: IPv4)
      requires Valid()
      modifies this
      ensures Valid() && View() == Released(old(View()), ip)
    {
      available := available + [ip];
      returned := returned + [ip];
      assert issued + available == old(issued + available) + [ip];
      assert initial + returned == old(initial + returned) + [ip];
    }
  }
}
