/** To which slave the master sends a packet for a client (master/main.go:136-153, 475-502). */
module LifecycleRouting {
  import opened Wrappers
  import opened Bytes
  import opened Crypto
  import opened SessionTable
  import opened SlaveNode
  import opened Lifecycle
  import opened LifecycleInvariants
  import opened LifecycleTheorems

  /** The slave to which the master sends a packet from the network stack. */
  function Routed(s: State, pkt: seq<byte>): Option<SlaveId> {
    if |pkt| < 20 || pkt[0] / 16 != 4 || Destination(pkt) !in s.table.byTunIP then None
    else
      var id := s.table.byTunIP[Destination(pkt)].id;
      if id in s.pins then Some(s.pins[id]) else None
  }

  /** An IPv4 packet, at least a header long, to this address. */
  predicate GoesTo(pkt: seq<byte>, ip: IPv4) {
    |pkt| >= 20 && pkt[0] / 16 == 4 && U32At(pkt, 16) == ip
  }

  /**
   Read off the actions alone: the slave of the last choice made for `ip` since the
   handshake of session `id` began, or else the slave picked for the handshake.
   */
  function LastChoice(acts: seq<Action>, i: nat, id: SessionId, ip: IPv4): Option<SlaveId>
    requires i <= |acts|
  {
    if i == 0 then None else Chosen(acts[i - 1], id, ip, LastChoice(acts, i - 1, id, ip))
  }

  function Chosen(a: Action, id: SessionId, ip: IPv4, before: Option<SlaveId>): Option<SlaveId> {
    match a
    case Begin(j, _, _, pick) => if j == id then Some(pick) else before
    case Traffic(Choose(at, q)) => if at == ip then Some(q) else before
    case _ => before
  }

  /** While session `id` is set up and established at `ip`, `last` is where its packets go. */
  predicate PinIs(procs: Procs, pins: map<SessionId, SlaveId>, id: SessionId, ip: IPv4, last: Option<SlaveId>) {
    id in procs && procs[id].sess.ip == ip ==>
      && (procs[id].InFlight() ==> last == Some(procs[id].pick))
      && (procs[id].InTable() ==> id in pins && last == Some(pins[id]))
  }

  lemma PinAfterHandshake(
    c: Config, s: State, j: SessionId, h: HandshakeStep, id: SessionId, ip: IPv4, last: Option<SlaveId>)
    requires HandshakeEnabled(c, s, j, h) && PinIs(s.procs, s.pins, id, ip, last)
    ensures var n := HandshakeNext(c, s, j, h); PinIs(n.procs, n.pins, id, ip, last)
  {
  }

  lemma PinAfterHook(c: Config, s: State, j: SessionId, k: HookStep, id: SessionId, ip: IPv4, last: Option<SlaveId>)
    requires HookEnabled(c, s, j, k) && PinIs(s.procs, s.pins, id, ip, last)
    ensures var n := HookNext(c, s, j, k); PinIs(n.procs, n.pins, id, ip, last)
  {
  }

  lemma PinAfterTraffic(c: Config, s: State, t: TrafficStep, id: SessionId, ip: IPv4, last: Option<SlaveId>)
    requires TrafficEnabled(c, s, t) && IpsExclusive(s.procs) && TableOk(s.procs, s.table)
    requires PinIs(s.procs, s.pins, id, ip, last)
    ensures PinIs(s.procs, TrafficNext(c, s, t).pins, id, ip, Chosen(Traffic(t), id, ip, last))
  {
    if t.Choose? {
      var found := s.table.byTunIP[t.ip];
      assert Holds(s.procs, found.id, t.ip);
      assert Holds(s.procs, id, t.ip) ==> id == found.id;
    }
  }

  lemma PinStep(c: Config, s: State, a: Action, id: SessionId, ip: IPv4, last: Option<SlaveId>)
    requires Enabled(c, s, a) && IpsExclusive(s.procs) && TableOk(s.procs, s.table)
    requires PinIs(s.procs, s.pins, id, ip, last)
    ensures var n := Next(c, s, a); PinIs(n.procs, n.pins, id, ip, Chosen(a, id, ip, last))
  {
    match a
    case Begin(_, _, _, _) =>
    case Handshake(j, h) => PinAfterHandshake(c, s, j, h, id, ip, last);
    case Hook(j, k) => PinAfterHook(c, s, j, k, id, ip, last);
    case Traffic(t) =>
      TrafficLeaves(c, s, t);
      PinAfterTraffic(c, s, t, id, ip, last);
  }

  lemma {:induction false} PinIsLastChoice(
    c: Config, ss: seq<State>, acts: seq<Action>, i: nat, id: SessionId, ip: IPv4)
    requires Run(c, ss, acts) && i < |ss|
    ensures PinIs(ss[i].procs, ss[i].pins, id, ip, LastChoice(acts, i, id, ip))
  {
    if i > 0 {
      PinIsLastChoice(c, ss, acts, i - 1, id, ip);
      RunKeeps(c, ss, acts, i - 1);
      PinStep(c, ss[i - 1], acts[i - 1], id, ip, LastChoice(acts, i - 1, id, ip));
    }
  }

  /**
   A packet for a session in the table goes to the slave last chosen for it, which is
   connected; a packet for any other address goes nowhere.
   */
  lemma RoutedExactly(c: Config, ss: seq<State>, acts: seq<Action>, i: nat, pkt: seq<byte>)
    requires Run(c, ss, acts) && i < |ss|
    ensures forall id :: id in ss[i].table.byID && GoesTo(pkt, ss[i].table.byID[id].ip) ==>
              var slave := LastChoice(acts, i, id, ss[i].table.byID[id].ip);
              Routed(ss[i], pkt) == slave && slave.Some? && slave.value in c.slaveIds
    ensures (forall id :: id in ss[i].table.byID ==> !GoesTo(pkt, ss[i].table.byID[id].ip)) ==>
              Routed(ss[i], pkt) == None
  {
    RunKeeps(c, ss, acts, i);
    var s := ss[i];
    forall id | id in s.table.byID && GoesTo(pkt, s.table.byID[id].ip)
      ensures var slave := LastChoice(acts, i, id, s.table.byID[id].ip);
              Routed(s, pkt) == slave && slave.Some? && slave.value in c.slaveIds
    {
      PinIsLastChoice(c, ss, acts, i, id, s.table.byID[id].ip);
    }
  }
}
