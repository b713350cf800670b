/** Downlink delivery: which slave forwards a packet, sealed how, and to which address. */
module LifecycleDelivery {
  import opened Wrappers
  import opened Bytes
  import opened Crypto
  import opened SessionTable
  import opened SlaveNode
  import opened Lifecycle
  import opened LifecycleInvariants
  import opened LifecycleTheorems
  import opened LifecycleTraffic
  import opened LifecycleStreams
  import opened LifecycleRouting

  /** The slave seals the packet for this session and sends it to `dst`. */
  predicate Forwards(c: Config, m: Entries, nonce: nat, pkt: seq<byte>, sess: Session, dst: Addr) {
    var r := Forwarded(m, nonce, pkt);
    && sess.ip in m && m[sess.ip].info == AnnouncementOf(sess)
    && r.Some? && r.value.0 == dst
    && Open(SessionKey(c.token, sess.ip), r.value.1) == Some(pkt)
  }

  /** The packet goes to the address the session was set up from, and opens there. */
  predicate Delivers(c: Config, m: Entries, nonce: nat, pkt: seq<byte>, sess: Session) {
    Forwards(c, m, nonce, pkt, sess, sess.client)
  }

  // ----- punches -----

  /** The step lets slave `q` handle the announcement of a session at `ip`. */
  predicate Announces(s: State, a: Action, q: SlaveId, ip: IPv4) {
    && a == Traffic(Deliver(q)) && q in s.slaves && s.slaves[q].queue != []
    && s.slaves[q].queue[0].NewSession? && s.slaves[q].queue[0].info.ip == ip
  }

  /** The step is a punch that finds an entry for `ip` at slave `q`. */
  predicate Punches(s: State, a: Action, q: SlaveId, ip: IPv4) {
    a.Traffic? && a.t.Punch? && a.t.q == q && a.t.ip == ip && q in s.slaves && ip in s.slaves[q].sessions
  }

  /** The source of the last punch for `ip` at slave `q` since it handled the announcement, if there was one. */
  function LastPunch(ss: seq<State>, acts: seq<Action>, i: nat, q: SlaveId, ip: IPv4): Option<Addr>
    requires i <= |acts| && |ss| == |acts| + 1
  {
    if i == 0 || Announces(ss[i - 1], acts[i - 1], q, ip) then None
    else if Punches(ss[i - 1], acts[i - 1], q, ip) then Some(acts[i - 1].t.src)
    else LastPunch(ss, acts, i - 1, q, ip)
  }

  /** An entry's address is the last punch's source, or the announced one. */
  predicate RecordedAs(m: Entries, ip: IPv4, punch: Option<Addr>) {
    ip in m ==> ClientAddr(m[ip]) == if punch.Some? then punch.value else m[ip].info.client
  }

  lemma RecordedAfterTraffic(c: Config, s: State, t: TrafficStep, q: SlaveId, ip: IPv4, punch: Option<Addr>)
    requires TrafficEnabled(c, s, t) && q in s.slaves && RecordedAs(s.slaves[q].sessions, ip, punch)
    ensures q in TrafficNext(c, s, t).slaves
    ensures var a := Traffic(t);
            RecordedAs(TrafficNext(c, s, t).slaves[q].sessions, ip,
              if Announces(s, a, q, ip) then None else if Punches(s, a, q, ip) then Some(t.src) else punch)
  {
  }

  predicate SameEntries(slaves: map<SlaveId, Slave>, slaves': map<SlaveId, Slave>, q: SlaveId) {
    q in slaves ==> q in slaves' && slaves'[q].sessions == slaves[q].sessions
  }

  lemma EntriesAfterHandshake(c: Config, s: State, id: SessionId, h: HandshakeStep, q: SlaveId)
    requires HandshakeEnabled(c, s, id, h)
    ensures SameEntries(s.slaves, HandshakeNext(c, s, id, h).slaves, q)
  {
  }

  lemma EntriesAfterHook(c: Config, s: State, id: SessionId, k: HookStep, q: SlaveId)
    requires HookEnabled(c, s, id, k)
    ensures SameEntries(s.slaves, HookNext(c, s, id, k).slaves, q)
  {
  }

  /**
   At every point of a run the address a slave has recorded for a tunnel address is
   the source of the last punch for it since the announcement was handled, or the
   announced address if there was none.
   */
  lemma {:induction false} RecordedAddress(
    c: Config, ss: seq<State>, acts: seq<Action>, i: nat, q: SlaveId, ip: IPv4)
    requires Run(c, ss, acts) && i < |ss| && q in c.slaveIds
    ensures q in ss[i].slaves && RecordedAs(ss[i].slaves[q].sessions, ip, LastPunch(ss, acts, i, q, ip))
  {
    if i > 0 {
      RecordedAddress(c, ss, acts, i - 1, q, ip);
      RecordedStep(c, ss[i - 1], acts[i - 1], q, ip, LastPunch(ss, acts, i - 1, q, ip));
    }
  }

  lemma RecordedStep(c: Config, s: State, a: Action, q: SlaveId, ip: IPv4, punch: Option<Addr>)
    requires Enabled(c, s, a) && q in s.slaves && RecordedAs(s.slaves[q].sessions, ip, punch)
    ensures q in Next(c, s, a).slaves
    ensures RecordedAs(Next(c, s, a).slaves[q].sessions, ip,
              if Announces(s, a, q, ip) then None else if Punches(s, a, q, ip) then Some(a.t.src) else punch)
  {
    match a
    case Begin(_, _, _, _) =>
    case Handshake(id, h) => EntriesAfterHandshake(c, s, id, h, q);
    case Hook(id, k) => EntriesAfterHook(c, s, id, k, q);
    case Traffic(t) => RecordedAfterTraffic(c, s, t, q, ip, punch);
  }

  // ----- delivery -----

  /** Between two points of a run a registered session keeps its record and its slaves. */
  lemma RecordStable(c: Config, ss: seq<State>, acts: seq<Action>, i: nat, j: nat, id: SessionId)
    requires Run(c, ss, acts) && i <= j < |ss|
    ensures KeepsRecordOf(c, ss[i].procs, ss[j].procs, id)
  {
    forall k | 0 <= k < |acts| ensures KeepsRecordOf(c, ss[k].procs, ss[k + 1].procs, id) {
      RecordInRun(c, ss, acts, k, id);
    }
    RecordChain(c, ss, i, j, id);
  }

  lemma {:induction false} RecordChain(c: Config, ss: seq<State>, i: nat, j: nat, id: SessionId)
    requires i <= j < |ss|
    requires forall k :: 0 <= k < |ss| - 1 ==> KeepsRecordOf(c, ss[k].procs, ss[k + 1].procs, id)
    ensures KeepsRecordOf(c, ss[i].procs, ss[j].procs, id)
  {
    if i < j {
      RecordChain(c, ss, i, j - 1, id);
      assert KeepsRecordOf(c, ss[j - 1].procs, ss[j - 1 + 1].procs, id);
    }
  }

  predicate KeepsRecord(c: Config, p: Proc, p': Proc) {
    ANNOUNCING <= p'.stage && p'.sess == p.sess && Targets(c, p') == Targets(c, p)
  }

  predicate KeepsRecordOf(c: Config, procs: Procs, procs': Procs, id: SessionId) {
    id in procs && ANNOUNCING <= procs[id].stage ==> id in procs' && KeepsRecord(c, procs[id], procs'[id])
  }

  lemma RecordAfterHandshake(c: Config, s: State, j: SessionId, h: HandshakeStep, id: SessionId)
    requires HandshakeEnabled(c, s, j, h)
    ensures KeepsRecordOf(c, s.procs, HandshakeNext(c, s, j, h).procs, id)
  {
  }

  lemma RecordAfterHook(c: Config, s: State, j: SessionId, k: HookStep, id: SessionId)
    requires HookEnabled(c, s, j, k)
    ensures KeepsRecordOf(c, s.procs, HookNext(c, s, j, k).procs, id)
  {
  }

  lemma RecordStep(c: Config, s: State, a: Action, id: SessionId)
    requires Enabled(c, s, a)
    ensures KeepsRecordOf(c, s.procs, Next(c, s, a).procs, id)
  {
    match a
    case Begin(_, _, _, _) =>
    case Handshake(j, h) => RecordAfterHandshake(c, s, j, h, id);
    case Hook(j, k) => RecordAfterHook(c, s, j, k, id);
    case Traffic(t) => TrafficLeaves(c, s, t);
  }

  lemma RecordInRun(c: Config, ss: seq<State>, acts: seq<Action>, i: nat, id: SessionId)
    requires Run(c, ss, acts) && i < |acts|
    ensures KeepsRecordOf(c, ss[i].procs, ss[i + 1].procs, id)
  {
    RecordStep(c, ss[i], acts[i], id);
  }

  lemma ForwardedIffShown(
    c: Config, procs: Procs, q: SlaveId, sl: Slave, id: SessionId, nonce: nat, pkt: seq<byte>, dst: Addr)
    requires Current(c, procs, q, sl) && id in procs && procs[id].InTable() && procs[id].sess.id == id
    requires GoesTo(pkt, procs[id].sess.ip)
    ensures var m, sess := sl.sessions, procs[id].sess;
            && (Forwards(c, m, nonce, pkt, sess, dst) <==>
                  q in procs[id].announced && !Pending(sl.queue, id) && sess.ip in m && dst == ClientAddr(m[sess.ip]))
            && (q in procs[id].announced && !Pending(sl.queue, id) ==>
                  sess.ip in m && m[sess.ip].info.client == sess.client)
  {
    var ip := procs[id].sess.ip;
    assert Shows(sl.sessions, ip, id) <==> ip in sl.sessions && sl.sessions[ip].info.id == id;
  }

  /** Where a slave's packets for this session go: the last punch's source, or the session's client. */
  function Target(ss: seq<State>, acts: seq<Action>, j: nat, q: SlaveId, sess: Session): Addr
    requires j <= |acts| && |ss| == |acts| + 1
  {
    var punch := LastPunch(ss, acts, j, q, sess.ip);
    if punch.Some? then punch.value else sess.client
  }

  /**
   A packet that leaves the master for a live session in one state, and is handled
   by the slave in a later one in which the session still lives, is sealed so that
   it opens to the same bytes and sent to the last punch's source, or to the
   session's client without a punch, exactly when the slave is one the handshake
   announced the session to and has handled the announcement.
   */
  lemma DownlinkForwarded(
    c: Config, ss: seq<State>, acts: seq<Action>, i: nat, j: nat, id: SessionId, q: SlaveId, nonce: nat, pkt: seq<byte>,
    dst: Addr)
    requires Run(c, ss, acts) && i <= j < |ss|
    requires id in ss[i].procs && ss[i].procs[id].stage == LIVE && id in ss[j].procs && ss[j].procs[id].stage == LIVE
    requires GoesTo(pkt, ss[i].procs[id].sess.ip)
    requires Routed(ss[i], pkt) == Some(q) && q in ss[j].slaves
    ensures var sess := ss[i].procs[id].sess;
            Forwards(c, ss[j].slaves[q].sessions, nonce, pkt, sess, dst) <==>
              q in Targets(c, ss[i].procs[id]) && !Pending(ss[j].slaves[q].queue, id)
              && dst == Target(ss, acts, j, q, sess)
  {
    RecordStable(c, ss, acts, i, j, id);
    SlavesOfRun(c, ss, acts, j);
    SlaveAtAnyMoment(c, ss, acts, j, q);
    LiveIsAnnounced(c, ss, acts, j, id);
    ForwardedIffShown(c, ss[j].procs, q, ss[j].slaves[q], id, nonce, pkt, dst);
    RecordedAddress(c, ss, acts, j, q, ss[i].procs[id].sess.ip);
  }

  lemma LiveIsAnnounced(c: Config, ss: seq<State>, acts: seq<Action>, j: nat, id: SessionId)
    requires Run(c, ss, acts) && j < |ss| && id in ss[j].procs && ss[j].procs[id].stage == LIVE
    ensures ss[j].procs[id].announced == Targets(c, ss[j].procs[id]) && ss[j].procs[id].sess.id == id
    ensures Targets(c, ss[j].procs[id]) <= c.slaveIds
  {
    RunKeeps(c, ss, acts, j);
    assert ProcOk(c, id, ss[j].procs[id]);
  }

  /** It reaches the session's client exactly when, besides, the last punch, if any, came from there. */
  lemma DownlinkDelivered(
    c: Config, ss: seq<State>, acts: seq<Action>, i: nat, j: nat, id: SessionId, q: SlaveId, nonce: nat, pkt: seq<byte>)
    requires Run(c, ss, acts) && i <= j < |ss|
    requires id in ss[i].procs && ss[i].procs[id].stage == LIVE && id in ss[j].procs && ss[j].procs[id].stage == LIVE
    requires GoesTo(pkt, ss[i].procs[id].sess.ip)
    requires Routed(ss[i], pkt) == Some(q) && q in ss[j].slaves
    ensures var sess := ss[i].procs[id].sess;
            var punch := LastPunch(ss, acts, j, q, sess.ip);
            Delivers(c, ss[j].slaves[q].sessions, nonce, pkt, sess) <==>
              q in Targets(c, ss[i].procs[id]) && !Pending(ss[j].slaves[q].queue, id)
              && (punch == None || punch == Some(sess.client))
  {
    DownlinkForwarded(c, ss, acts, i, j, id, q, nonce, pkt, ss[i].procs[id].sess.client);
  }

  /**
   A packet for a session of a version 3 client goes to the slave last chosen for it,
   which is connected. That slave forwards it exactly when it has handled the
   announcement, and to the client exactly when the last punch there, if any, came
   from it.
   */
  lemma NearestSlaveDelivers(
    c: Config, ss: seq<State>, acts: seq<Action>, i: nat, j: nat, id: SessionId, nonce: nat, pkt: seq<byte>)
    requires Run(c, ss, acts) && i <= j < |ss|
    requires id in ss[i].procs && ss[i].procs[id].stage == LIVE && ss[i].procs[id].v3
    requires id in ss[j].procs && ss[j].procs[id].stage == LIVE
    requires GoesTo(pkt, ss[i].procs[id].sess.ip)
    ensures var r, sess := Routed(ss[i], pkt), ss[i].procs[id].sess;
            && r == LastChoice(acts, i, id, sess.ip) && r.Some? && r.value in ss[j].slaves
            && var sl, target := ss[j].slaves[r.value], Target(ss, acts, j, r.value, sess);
            && (Forwards(c, sl.sessions, nonce, pkt, sess, target) <==> !Pending(sl.queue, id))
            && (Delivers(c, sl.sessions, nonce, pkt, sess) <==> !Pending(sl.queue, id) && target == sess.client)
  {
    LiveInTable(c, ss, acts, i, id);
    RoutedExactly(c, ss, acts, i, pkt);
    SlavesOfRun(c, ss, acts, j);
    var q, sess := Routed(ss[i], pkt).value, ss[i].procs[id].sess;
    DownlinkForwarded(c, ss, acts, i, j, id, q, nonce, pkt, Target(ss, acts, j, q, sess));
    DownlinkForwarded(c, ss, acts, i, j, id, q, nonce, pkt, sess.client);
  }

  lemma LiveInTable(c: Config, ss: seq<State>, acts: seq<Action>, i: nat, id: SessionId)
    requires Run(c, ss, acts) && i < |ss| && id in ss[i].procs && ss[i].procs[id].stage == LIVE
    ensures id in ss[i].table.byID && ss[i].table.byID[id] == ss[i].procs[id].sess
  {
    RunKeeps(c, ss, acts, i);
    assert TableOk(ss[i].procs, ss[i].table);
  }
}
