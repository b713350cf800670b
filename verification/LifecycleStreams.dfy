/** What a slave holds at any moment, with messages from the master still on their way to it. */
module LifecycleStreams {
  import opened Wrappers
  import opened Bytes
  import opened Crypto
  import opened SessionTable
  import opened SlaveNode
  import opened Lifecycle
  import opened LifecycleInvariants
  import opened LifecycleTheorems

  /** The announcement of session `id` has not been handled yet. */
  ghost predicate Pending(queue: seq<ControlMsg>, id: SessionId) {
    exists i :: 0 <= i < |queue| && queue[i].NewSession? && queue[i].info.id == id
  }

  /** The end of session `id` is in the queue behind position `i`. */
  ghost predicate EndBehind(queue: seq<ControlMsg>, i: int, id: SessionId) {
    exists j :: 0 <= j < |queue| && i < j && queue[j] == SessionEnd(id)
  }

  predicate EndSent(procs: Procs, q: SlaveId, id: SessionId) {
    id in procs && q in procs[id].ended
  }

  /** No session's announcement is among entries and queue twice. */
  ghost predicate AnnouncedOnce(m: Entries, queue: seq<ControlMsg>) {
    && (forall i, j :: 0 <= i < j < |queue| && queue[i].NewSession? && queue[j].NewSession? ==>
          queue[i].info.id != queue[j].info.id)
    && (forall ip, j :: ip in m && 0 <= j < |queue| && queue[j].NewSession? ==> m[ip].info.id != queue[j].info.id)
  }

  /** Behind every announcement whose end was sent there is that end. */
  ghost predicate EndsFollow(procs: Procs, q: SlaveId, m: Entries, queue: seq<ControlMsg>) {
    && (forall ip :: ip in m && EndSent(procs, q, m[ip].info.id) ==> EndBehind(queue, -1, m[ip].info.id))
    && (forall i :: 0 <= i < |queue| && queue[i].NewSession? && EndSent(procs, q, queue[i].info.id) ==>
          EndBehind(queue, i, queue[i].info.id))
  }

  ghost predicate StreamOk(procs: Procs, q: SlaveId, sl: Slave) {
    AnnouncedOnce(sl.sessions, sl.queue) && EndsFollow(procs, q, sl.sessions, sl.queue)
  }

  // ----- one message -----

  lemma OnceAppended(m: Entries, queue: seq<ControlMsg>, msg: ControlMsg)
    requires AnnouncedOnce(m, queue)
    requires msg.NewSession? ==> !Pending(queue, msg.info.id) && forall ip :: ip in m ==> m[ip].info.id != msg.info.id
    ensures AnnouncedOnce(m, queue + [msg])
  {
  }

  lemma EndBehindAppended(queue: seq<ControlMsg>, msg: ControlMsg, i: int, id: SessionId)
    requires EndBehind(queue, i, id) || (msg == SessionEnd(id) && i < |queue|)
    ensures EndBehind(queue + [msg], i, id)
  {
    if EndBehind(queue, i, id) {
      var j :| 0 <= j < |queue| && i < j && queue[j] == SessionEnd(id);
      assert (queue + [msg])[j] == SessionEnd(id);
    } else {
      assert (queue + [msg])[|queue|] == SessionEnd(id);
    }
  }

  /** `procs'` may have the end in `msg` sent, and no other. */
  lemma FollowAppended(
    procs: Procs, procs': Procs, q: SlaveId, m: Entries, queue: seq<ControlMsg>, msg: ControlMsg)
    requires EndsFollow(procs, q, m, queue)
    requires forall id :: EndSent(procs', q, id) ==> EndSent(procs, q, id) || msg == SessionEnd(id)
    requires msg.NewSession? ==> !EndSent(procs', q, msg.info.id)
    ensures EndsFollow(procs', q, m, queue + [msg])
  {
    var queue' := queue + [msg];
    forall ip | ip in m && EndSent(procs', q, m[ip].info.id) ensures EndBehind(queue', -1, m[ip].info.id) {
      EndBehindAppended(queue, msg, -1, m[ip].info.id);
    }
    forall i | 0 <= i < |queue'| && queue'[i].NewSession? && EndSent(procs', q, queue'[i].info.id)
      ensures EndBehind(queue', i, queue'[i].info.id)
    {
      assert i < |queue| && queue'[i] == queue[i];
      EndBehindAppended(queue, msg, i, queue[i].info.id);
    }
  }

  lemma FollowFrame(procs: Procs, procs': Procs, q: SlaveId, m: Entries, queue: seq<ControlMsg>)
    requires EndsFollow(procs, q, m, queue) && forall id :: EndSent(procs', q, id) ==> EndSent(procs, q, id)
    ensures EndsFollow(procs', q, m, queue)
  {
  }

  lemma OnceHandled(m: Entries, token: seq<byte>, queue: seq<ControlMsg>)
    requires AnnouncedOnce(m, queue) && queue != []
    ensures AnnouncedOnce(Handled(m, token, queue[0]), queue[1..])
  {
  }

  lemma EndBehindHandled(queue: seq<ControlMsg>, i: int, id: SessionId)
    requires queue != [] && EndBehind(queue, i, id) && (i >= 0 || queue[0] != SessionEnd(id))
    ensures EndBehind(queue[1..], if i >= 0 then i - 1 else -1, id)
  {
    var j :| 0 <= j < |queue| && i < j && queue[j] == SessionEnd(id);
    assert queue[1..][j - 1] == SessionEnd(id);
  }

  lemma FollowHandled(procs: Procs, q: SlaveId, m: Entries, token: seq<byte>, queue: seq<ControlMsg>)
    requires EndsFollow(procs, q, m, queue) && queue != []
    ensures EndsFollow(procs, q, Handled(m, token, queue[0]), queue[1..])
  {
    var m' := Handled(m, token, queue[0]);
    forall ip | ip in m' && EndSent(procs, q, m'[ip].info.id) ensures EndBehind(queue[1..], -1, m'[ip].info.id) {
      if queue[0].NewSession? && ip == queue[0].info.ip {
        EndBehindHandled(queue, 0, m'[ip].info.id);
      } else {
        assert m'[ip] == m[ip];
        EndBehindHandled(queue, -1, m[ip].info.id);
      }
    }
    forall i | 0 <= i < |queue[1..]| && queue[1..][i].NewSession? && EndSent(procs, q, queue[1..][i].info.id)
      ensures EndBehind(queue[1..], i, queue[1..][i].info.id)
    {
      assert queue[1..][i] == queue[i + 1];
      EndBehindHandled(queue, i + 1, queue[i + 1].info.id);
    }
  }

  lemma StreamPunched(procs: Procs, q: SlaveId, sl: Slave, ip: IPv4, src: Addr)
    requires StreamOk(procs, q, sl)
    ensures StreamOk(procs, q, sl.(sessions := WithPunch(sl.sessions, ip, src)))
  {
    var m, m' := sl.sessions, WithPunch(sl.sessions, ip, src);
    assert forall a :: a in m' ==> a in m && m'[a].info == m[a].info;
  }

  // ----- one step -----

  lemma StreamAfterHandshake(c: Config, s: State, id: SessionId, h: HandshakeStep, q: SlaveId)
    requires HandshakeEnabled(c, s, id, h) && ProcOk(c, id, s.procs[id]) && q in s.slaves
    requires SlaveOk(c, s.procs, q, s.slaves[q]) && StreamOk(s.procs, q, s.slaves[q])
    ensures var n := HandshakeNext(c, s, id, h); q in n.slaves && StreamOk(n.procs, q, n.slaves[q])
  {
    var sl, procs' := s.slaves[q], s.procs[id := HandshakeProc(s.procs[id], h)];
    assert forall j :: EndSent(procs', q, j) ==> EndSent(s.procs, q, j);
    if h == Announce(q) {
      StreamAnnounced(c, s.procs, procs', id, q, sl);
    } else {
      FollowFrame(s.procs, procs', q, sl.sessions, sl.queue);
    }
  }

  lemma StreamAnnounced(c: Config, procs: Procs, procs': Procs, id: SessionId, q: SlaveId, sl: Slave)
    requires SlaveOk(c, procs, q, sl) && StreamOk(procs, q, sl)
    requires id in procs && procs[id].sess.id == id && q !in procs[id].announced && q !in procs[id].ended
    requires forall j :: EndSent(procs', q, j) ==> EndSent(procs, q, j)
    ensures StreamOk(procs', q, sl.(queue := sl.queue + [NewSession(AnnouncementOf(procs[id].sess))]))
  {
    var msg := NewSession(AnnouncementOf(procs[id].sess));
    OnceAppended(sl.sessions, sl.queue, msg);
    FollowAppended(procs, procs', q, sl.sessions, sl.queue, msg);
  }

  lemma StreamAfterHook(c: Config, s: State, id: SessionId, k: HookStep, q: SlaveId)
    requires HookEnabled(c, s, id, k) && q in s.slaves && StreamOk(s.procs, q, s.slaves[q])
    ensures var n := HookNext(c, s, id, k); q in n.slaves && StreamOk(n.procs, q, n.slaves[q])
  {
    var sl, procs' := s.slaves[q], s.procs[id := HookProc(s.procs[id], k)];
    if k == SendEnd(q) {
      OnceAppended(sl.sessions, sl.queue, SessionEnd(id));
      FollowAppended(s.procs, procs', q, sl.sessions, sl.queue, SessionEnd(id));
    } else {
      FollowFrame(s.procs, procs', q, sl.sessions, sl.queue);
    }
  }

  lemma StreamAfterTraffic(c: Config, s: State, t: TrafficStep, q: SlaveId)
    requires TrafficEnabled(c, s, t) && q in s.slaves && StreamOk(s.procs, q, s.slaves[q])
    ensures var n := TrafficNext(c, s, t); q in n.slaves && StreamOk(s.procs, q, n.slaves[q])
  {
    var sl := s.slaves[q];
    match t
    case Deliver(r) =>
      if r == q {
        OnceHandled(sl.sessions, c.token, sl.queue);
        FollowHandled(s.procs, q, sl.sessions, c.token, sl.queue);
      }
    case Punch(r, ip, src) =>
      if r == q {
        StreamPunched(s.procs, q, sl, ip, src);
      }
    case _ =>
  }

  lemma StreamStep(c: Config, s: State, a: Action, q: SlaveId)
    requires Enabled(c, s, a) && ProcsOk(c, s.procs) && q in s.slaves
    requires SlaveOk(c, s.procs, q, s.slaves[q]) && StreamOk(s.procs, q, s.slaves[q])
    ensures var n := Next(c, s, a); q in n.slaves && StreamOk(n.procs, q, n.slaves[q])
  {
    match a
    case Begin(id, client, v3, pick) =>
      FollowFrame(s.procs, Begun(c, s, id, client, v3, pick).procs, q, s.slaves[q].sessions, s.slaves[q].queue);
    case Handshake(id, h) => StreamAfterHandshake(c, s, id, h, q);
    case Hook(id, k) => StreamAfterHook(c, s, id, k, q);
    case Traffic(t) =>
      TrafficLeaves(c, s, t);
      StreamAfterTraffic(c, s, t, q);
  }

  lemma {:induction false} StreamRun(c: Config, ss: seq<State>, acts: seq<Action>, i: nat, q: SlaveId)
    requires Run(c, ss, acts) && i < |ss| && q in c.slaveIds
    ensures q in ss[i].slaves && StreamOk(ss[i].procs, q, ss[i].slaves[q])
  {
    if i > 0 {
      StreamRun(c, ss, acts, i - 1, q);
      RunKeeps(c, ss, acts, i - 1);
      StreamStep(c, ss[i - 1], acts[i - 1], q);
    }
  }

  // ----- what is shown -----

  /** Without an announcement of `id` in the queue, what the drained view gives for it is there already. */
  lemma {:induction false} DrainingAddsOnly(m: map<IPv4, SessionId>, queue: seq<ControlMsg>, ip: IPv4, id: SessionId)
    requires !Pending(queue, id) && ip in Drained(m, queue) && Drained(m, queue)[ip] == id
    ensures ip in m && m[ip] == id
    decreases |queue|
  {
    if queue != [] {
      assert forall i :: 0 <= i < |queue[1..]| ==> queue[1..][i] == queue[i + 1];
      DrainingAddsOnly(OwnersAfter(m, queue[0]), queue[1..], ip, id);
      assert queue[0].NewSession? ==> queue[0].info.id != id;
    }
  }

  /**
   At any moment a slave shows a session in the table exactly when it was announced
   to it and the announcement handled. Whatever it shows was announced with these
   very data, and is in the table, or has its end still to be sent, or in the queue.
   */
  ghost predicate Current(c: Config, procs: Procs, q: SlaveId, sl: Slave) {
    && (forall id :: id in procs && procs[id].InTable() ==>
          (Shows(sl.sessions, procs[id].sess.ip, id) <==> q in procs[id].announced && !Pending(sl.queue, id)))
    && (forall ip, id :: Shows(sl.sessions, ip, id) ==>
          && ToldOf(procs, q, ip, id)
          && sl.sessions[ip].info == AnnouncementOf(procs[id].sess)
          && sl.sessions[ip].key == SessionKey(c.token, ip)
          && (procs[id].InTable() || (procs[id].HookPending() && q !in procs[id].ended)
              || EndBehind(sl.queue, -1, id)))
  }

  lemma ShownOnceHandled(c: Config, procs: Procs, q: SlaveId, sl: Slave, id: SessionId)
    requires SlaveOk(c, procs, q, sl) && StreamOk(procs, q, sl) && id in procs && procs[id].InTable()
    ensures Shows(sl.sessions, procs[id].sess.ip, id) <==> q in procs[id].announced && !Pending(sl.queue, id)
  {
    var ip := procs[id].sess.ip;
    if q in procs[id].announced && !Pending(sl.queue, id) {
      DrainingAddsOnly(Owners(sl.sessions), sl.queue, ip, id);
    }
  }

  lemma ShownWasAnnounced(c: Config, procs: Procs, q: SlaveId, sl: Slave, ip: IPv4, id: SessionId)
    requires ProcsOk(c, procs) && SlaveOk(c, procs, q, sl) && StreamOk(procs, q, sl) && Shows(sl.sessions, ip, id)
    ensures ToldOf(procs, q, ip, id) && sl.sessions[ip].info == AnnouncementOf(procs[id].sess)
    ensures sl.sessions[ip].key == SessionKey(c.token, ip)
    ensures procs[id].InTable() || (procs[id].HookPending() && q !in procs[id].ended) || EndBehind(sl.queue, -1, id)
  {
    assert Announced(procs, q, sl.sessions[ip].info) && ProcOk(c, id, procs[id]);
  }

  lemma SlaveAtAnyMoment(c: Config, ss: seq<State>, acts: seq<Action>, i: nat, q: SlaveId)
    requires Run(c, ss, acts) && i < |ss| && q in c.slaveIds
    ensures q in ss[i].slaves && Current(c, ss[i].procs, q, ss[i].slaves[q])
  {
    RunKeeps(c, ss, acts, i);
    StreamRun(c, ss, acts, i, q);
    var procs, sl := ss[i].procs, ss[i].slaves[q];
    forall id | id in procs && procs[id].InTable()
      ensures Shows(sl.sessions, procs[id].sess.ip, id) <==> q in procs[id].announced && !Pending(sl.queue, id)
    {
      ShownOnceHandled(c, procs, q, sl, id);
    }
    forall ip, id | Shows(sl.sessions, ip, id)
      ensures ToldOf(procs, q, ip, id) && sl.sessions[ip].info == AnnouncementOf(procs[id].sess)
      ensures sl.sessions[ip].key == SessionKey(c.token, ip)
      ensures procs[id].InTable() || (procs[id].HookPending() && q !in procs[id].ended) || EndBehind(sl.queue, -1, id)
    {
      ShownWasAnnounced(c, procs, q, sl, ip, id);
    }
  }

  // ----- drained slaves -----

  /**
   A drained slave shows every session in the table that was announced to it, at
   its address; and whatever it shows was announced with these very data, and is
   in the table or has its end still to be sent to this slave.
   */
  ghost predicate Faithful(c: Config, procs: Procs, q: SlaveId, m: Entries) {
    && (forall ip, id :: ToldOf(procs, q, ip, id) && procs[id].InTable() ==> Shows(m, ip, id))
    && (forall ip, id :: Shows(m, ip, id) ==>
          && ToldOf(procs, q, ip, id)
          && m[ip].info == AnnouncementOf(procs[id].sess)
          && m[ip].key == SessionKey(c.token, ip)
          && (procs[id].InTable() || (procs[id].HookPending() && q !in procs[id].ended)))
  }

  lemma DrainedSlave(c: Config, ss: seq<State>, acts: seq<Action>, i: nat, q: SlaveId)
    requires Run(c, ss, acts) && i < |ss|
    requires q in ss[i].slaves && ss[i].slaves[q].queue == []
    ensures Faithful(c, ss[i].procs, q, ss[i].slaves[q].sessions)
  {
    SlavesOfRun(c, ss, acts, i);
    SlaveAtAnyMoment(c, ss, acts, i, q);
  }

  lemma SlavesOfRun(c: Config, ss: seq<State>, acts: seq<Action>, i: nat)
    requires Run(c, ss, acts) && i < |ss|
    ensures ss[i].slaves.Keys == c.slaveIds
  {
    RunKeeps(c, ss, acts, i);
  }

  /** With no hook pending, a drained slave has exactly the live sessions announced to it. */
  lemma QuietSlaveIsExact(c: Config, ss: seq<State>, acts: seq<Action>, i: nat, q: SlaveId)
    requires Run(c, ss, acts) && i < |ss|
    requires q in ss[i].slaves && ss[i].slaves[q].queue == []
    requires forall id :: id in ss[i].procs ==> !ss[i].procs[id].HookPending()
    ensures forall ip, id :: Shows(ss[i].slaves[q].sessions, ip, id) <==>
              id in ss[i].table.byID && ToldOf(ss[i].procs, q, ip, id)
  {
    RunKeeps(c, ss, acts, i);
    DrainedSlave(c, ss, acts, i, q);
    assert TableOk(ss[i].procs, ss[i].table);
  }
}
