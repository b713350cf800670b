/** What the invariants of the lifecycle mean, for every state of every run. */
module LifecycleTheorems {
  import opened Wrappers
  import opened Bytes
  import opened Crypto
  import opened SessionTable
  import opened SlaveNode
  import opened Lifecycle
  import opened LifecycleInvariants

  // ----- slaves -----

  /** The slave's table gives session `id` at address `ip`. */
  predicate Shows(m: Entries, ip: IPv4, id: SessionId) {
    ip in m && m[ip].info.id == id
  }

  /** Session `id` has address `ip` and was announced to slave `q`. */
  predicate ToldOf(procs: Procs, q: SlaveId, ip: IPv4, id: SessionId) {
    id in procs && procs[id].sess.ip == ip && q in procs[id].announced
  }

  /** In every reachable state a slave's entries are for distinct sessions, as `HandleSessionEnd` needs. */
  lemma SlaveIdsDistinct(c: Config, ss: seq<State>, acts: seq<Action>, i: nat, q: SlaveId)
    requires Run(c, ss, acts) && i < |ss| && q in ss[i].slaves
    ensures DistinctIds(ss[i].slaves[q].sessions)
  {
    RunKeeps(c, ss, acts, i);
    assert SlaveOk(c, ss[i].procs, q, ss[i].slaves[q]);
  }

  // ----- tunnel addresses -----

  /** The pool's first contents are, at every point, the disjoint union of the free and the held addresses. */
  lemma AddressesConserved(c: Config, ss: seq<State>, acts: seq<Action>, i: nat)
    requires Run(c, ss, acts) && i < |ss|
    ensures forall ip :: ip in c.addresses <==> ip in ss[i].pool.available || Held(ss[i].procs, ip)
    ensures forall ip :: !(ip in ss[i].pool.available && Held(ss[i].procs, ip))
    ensures NoDuplicates(ss[i].pool.available)
    ensures IpsExclusive(ss[i].procs)
    ensures ss[i].pool.available == [] ==> forall ip :: ip in c.addresses ==> Held(ss[i].procs, ip)
  {
    RunKeeps(c, ss, acts, i);
  }

  /** An address that a step puts back was not in the pool. */
  lemma NeverReleasedTwice(c: Config, ss: seq<State>, acts: seq<Action>, i: nat, id: SessionId)
    requires Run(c, ss, acts) && i < |acts|
    requires acts[i] == Handshake(id, Abort) || acts[i] == Hook(id, ReleaseIp)
    ensures ss[i].procs[id].sess.ip !in ss[i].pool.available
    ensures ss[i + 1].pool.available == ss[i].pool.available + [ss[i].procs[id].sess.ip]
  {
    RunKeeps(c, ss, acts, i);
    assert Holds(ss[i].procs, id, ss[i].procs[id].sess.ip);
  }

  /** The n-th address ever issued is the n-th of the first contents followed by everything put back. */
  lemma IssuedInOrder(c: Config, ss: seq<State>, acts: seq<Action>, i: nat, n: nat)
    requires Run(c, ss, acts) && i < |ss| && n < |ss[i].pool.issued|
    ensures n < |c.addresses| ==> ss[i].pool.issued[n] == c.addresses[n]
    ensures n >= |c.addresses| ==>
              n - |c.addresses| < |ss[i].pool.returned|
                && ss[i].pool.issued[n] == ss[i].pool.returned[n - |c.addresses|]
  {
    RunKeeps(c, ss, acts, i);
    var p := ss[i].pool;
    assert (p.issued + p.available)[n] == (c.addresses + p.returned)[n];
  }

  // ----- the firewall -----

  /** The firewall set is the ports of the sessions that opened theirs and have not yet closed it. */
  lemma FirewallExact(c: Config, ss: seq<State>, acts: seq<Action>, i: nat, port: uint16)
    requires Run(c, ss, acts) && i < |ss|
    ensures port in ss[i].firewall <==>
              exists id :: id in ss[i].procs && ss[i].procs[id].HoldsPort()
                && ss[i].procs[id].sess.dataPort == Some(port)
  {
    RunKeeps(c, ss, acts, i);
    var procs := ss[i].procs;
    assert forall id :: id in procs && procs[id].HoldsPort() && procs[id].sess.dataPort == Some(port) <==>
      OwnsPort(procs, id, port);
  }

  /** No hook closes the port of another session. */
  lemma HookSparesOtherPorts(c: Config, ss: seq<State>, acts: seq<Action>, i: nat, id: SessionId, other: SessionId)
    requires Run(c, ss, acts) && i < |acts| && acts[i] == Hook(id, ClosePort)
    requires other != id && other in ss[i].procs && ss[i].procs[other].HoldsPort()
    ensures ss[i].procs[other].sess.dataPort.value in ss[i + 1].firewall
  {
    RunKeeps(c, ss, acts, i + 1);
    assert OwnsPort(ss[i + 1].procs, other, ss[i].procs[other].sess.dataPort.value);
  }

  // ----- the session table -----

  /** The table by identifier and the table by address are two views of one set of sessions. */
  lemma IndicesAgree(c: Config, ss: seq<State>, acts: seq<Action>, i: nat)
    requires Run(c, ss, acts) && i < |ss|
    ensures var t := ss[i].table;
            && t.byID.Values == t.byTunIP.Values
            && t.byClient.Values <= t.byID.Values
            && (forall id :: id in t.byID ==> t.byID[id].id == id)
            && (forall ip :: ip in t.byTunIP ==> t.byTunIP[ip].ip == ip)
            && (forall a :: a in t.byClient ==> t.byClient[a].client == a)
  {
    RunKeeps(c, ss, acts, i);
    var t := ss[i].table;
    forall s ensures s in t.byID.Values <==> s in t.byTunIP.Values {
      if s in t.byID.Values {
        var id :| id in t.byID && t.byID[id] == s;
        assert t.byTunIP[s.ip] == s;
      }
      if s in t.byTunIP.Values {
        var ip :| ip in t.byTunIP && t.byTunIP[ip] == s;
        assert t.byID[s.id] == s;
      }
    }
  }

  /** Every session in the table can be found by its client address. */
  ghost predicate ClientsComplete(t: Indices) {
    forall id :: id in t.byID ==> t.byID[id].client in t.byClient && t.byClient[t.byID[id].client] == t.byID[id]
  }

  /** The step registers no session whose client address a session in the table already has. */
  ghost predicate RegistersFreshClient(s: State, a: Action) {
    a.Handshake? && a.h == Register && a.id in s.procs ==>
      forall id :: id in s.table.byID ==> s.table.byID[id].client != s.procs[a.id].sess.client
  }

  lemma ClientsStep(c: Config, s: State, a: Action)
    requires Enabled(c, s, a) && Inv(c, s) && ClientsComplete(s.table)
    ensures ClientsComplete(Next(c, s, a).table) <==> RegistersFreshClient(s, a)
  {
    match a
    case Begin(_, _, _, _) =>
    case Traffic(t) => TrafficLeaves(c, s, t);
    case Hook(id, k) => ClientsAfterHook(c, s, id, k);
    case Handshake(id, h) => ClientsAfterHandshake(c, s, id, h);
  }

  lemma ClientsAfterHook(c: Config, s: State, id: SessionId, k: HookStep)
    requires HookEnabled(c, s, id, k) && TableOk(s.procs, s.table) && ClientsComplete(s.table)
    ensures ClientsComplete(HookNext(c, s, id, k).table)
  {
  }

  lemma ClientsAdded(t: Indices, s: Session)
    requires ClientsComplete(t) && s.id !in t.byID && forall id :: id in t.byID ==> t.byID[id].id == id
    ensures ClientsComplete(Added(t, s)) <==> forall id :: id in t.byID ==> t.byID[id].client != s.client
  {
    var n := Added(t, s);
    if id :| id in t.byID && t.byID[id].client == s.client {
      assert n.byID[id] == t.byID[id] && n.byClient[s.client] == s;
    } else {
      forall id | id in n.byID ensures n.byID[id].client in n.byClient && n.byClient[n.byID[id].client] == n.byID[id] {
        assert id in t.byID || id == s.id;
      }
    }
  }

  lemma ClientsAfterHandshake(c: Config, s: State, id: SessionId, h: HandshakeStep)
    requires HandshakeEnabled(c, s, id, h) && ProcOk(c, id, s.procs[id])
    requires TableOk(s.procs, s.table) && ClientsComplete(s.table)
    ensures ClientsComplete(HandshakeNext(c, s, id, h).table) <==> RegistersFreshClient(s, Handshake(id, h))
  {
    if h == Register {
      ClientsAdded(s.table, s.procs[id].sess);
    }
  }

  /**
   The client index is complete throughout a run exactly when no session is ever
   registered with the client address of a session then in the table.
   */
  lemma ClientIndexComplete(c: Config, ss: seq<State>, acts: seq<Action>)
    requires Run(c, ss, acts)
    ensures (forall i :: 0 <= i < |ss| ==> ClientsComplete(ss[i].table)) <==>
            (forall i :: 0 <= i < |acts| ==> RegistersFreshClient(ss[i], acts[i]))
  {
    if forall i :: 0 <= i < |ss| ==> ClientsComplete(ss[i].table) {
      forall i | 0 <= i < |acts| ensures RegistersFreshClient(ss[i], acts[i]) {
        assert ClientsComplete(ss[i].table) && ClientsComplete(ss[i + 1].table);
        RunKeeps(c, ss, acts, i);
        ClientsStep(c, ss[i], acts[i]);
      }
    }
    if forall i :: 0 <= i < |acts| ==> RegistersFreshClient(ss[i], acts[i]) {
      forall i | 0 <= i < |ss| ensures ClientsComplete(ss[i].table) {
        ClientsCompleteAt(c, ss, acts, i);
      }
    }
  }

  lemma {:induction false} ClientsCompleteAt(c: Config, ss: seq<State>, acts: seq<Action>, i: nat)
    requires Run(c, ss, acts) && i < |ss|
    requires forall k :: 0 <= k < |acts| ==> RegistersFreshClient(ss[k], acts[k])
    ensures ClientsComplete(ss[i].table)
  {
    if i > 0 {
      ClientsCompleteAt(c, ss, acts, i - 1);
      RunKeeps(c, ss, acts, i - 1);
      ClientsStep(c, ss[i - 1], acts[i - 1]);
    }
  }
}
