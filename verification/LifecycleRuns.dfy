/**
 Handshakes and removals that nothing interrupts, and concrete runs for the
 statements that need a condition.
 */
module LifecycleRuns {
  import opened Wrappers
  import opened Bytes
  import opened Crypto
  import opened SessionTable
  import opened SlaveNode
  import opened Lifecycle
  import opened LifecycleInvariants
  import opened LifecycleTheorems
  import opened LifecycleTraffic
  import opened LifecycleUplink
  import opened LifecycleRouting
  import opened LifecycleDelivery

  ghost predicate Ends(c: Config, ss: seq<State>, acts: seq<Action>, s: State) {
    Run(c, ss, acts) && ss[|acts|] == s
  }

  ghost predicate Reachable(c: Config, s: State) {
    exists ss, acts :: Ends(c, ss, acts, s)
  }

  lemma InitReachable(c: Config)
    requires NoDuplicates(c.addresses)
    ensures Reachable(c, Init(c))
  {
    assert Ends(c, [Init(c)], [], Init(c));
  }

  lemma StepReachable(c: Config, s: State, a: Action)
    requires Reachable(c, s) && Enabled(c, s, a)
    ensures Reachable(c, Next(c, s, a))
  {
    var ss, acts :| Ends(c, ss, acts, s);
    var n := Next(c, s, a);
    var ss', acts' := ss + [n], acts + [a];
    forall i | 0 <= i < |acts'| ensures Enabled(c, ss'[i], acts'[i]) && ss'[i + 1] == Next(c, ss'[i], acts'[i]) {
      if i < |acts| {
        assert ss'[i] == ss[i] && acts'[i] == acts[i] && ss'[i + 1] == ss[i + 1];
      }
    }
    assert Ends(c, ss', acts', n);
  }

  lemma ReachableInv(c: Config, s: State)
    requires Reachable(c, s)
    ensures Inv(c, s)
  {
    var ss, acts :| Ends(c, ss, acts, s);
    RunKeeps(c, ss, acts, |acts|);
  }

  lemma SlavesConnected(c: Config, s: State)
    requires Reachable(c, s)
    ensures s.slaves.Keys == c.slaveIds
  {
    ReachableInv(c, s);
  }

  lemma ReachableLive(c: Config, s: State, id: SessionId)
    requires Reachable(c, s) && id in s.procs && s.procs[id].stage == LIVE
    ensures s.procs[id].ended == {} && s.procs[id].sess.id == id
    ensures id in s.table.byID && s.table.byID[id] == s.procs[id].sess
  {
    ReachableInv(c, s);
    assert ProcOk(c, id, s.procs[id]);
  }

  /** Every slave of `targets` has the message at the end of its queue. */
  function SlavesTold(slaves: map<SlaveId, Slave>, targets: set<SlaveId>, msg: ControlMsg): map<SlaveId, Slave> {
    map q | q in slaves :: if q in targets then slaves[q].(queue := slaves[q].queue + [msg]) else slaves[q]
  }

  lemma SentToOneMore(slaves: map<SlaveId, Slave>, targets: set<SlaveId>, q: SlaveId, msg: ControlMsg)
    requires q in slaves && q in targets
    ensures SlavesTold(Sent(slaves, q, msg), targets - {q}, msg) == SlavesTold(slaves, targets, msg)
  {
  }

  lemma FewerLeft(targets: set<SlaveId>, told: set<SlaveId>, q: SlaveId)
    requires q in targets && q !in told
    ensures |targets - (told + {q})| < |targets - told|
  {
    assert targets - (told + {q}) == (targets - told) - {q};
  }

  // ----- an uninterrupted handshake -----

  /** The state after a handshake up to, and without, registration. */
  function Entered(
    c: Config, s: State, id: SessionId, client: Addr, v3: bool, pick: SlaveId, port: Option<uint16>): State
    requires BeginEnabled(c, s, id, pick)
  {
    var b := Begun(c, s, id, client, v3, pick);
    var p := b.procs[id];
    b.(procs := s.procs[id := p.(stage := OPENED, sess := p.sess.(dataPort := port))],
       cryptos := s.cryptos[client := ClientCipher(p.sess.key, id)],
       sockets := s.sockets + PortSet(port), firewall := s.firewall + PortSet(port))
  }

  /** The state in which the handshake has stored its cipher. */
  function Keyed(c: Config, s: State, id: SessionId, client: Addr, v3: bool, pick: SlaveId): State
    requires BeginEnabled(c, s, id, pick)
  {
    var b := Begun(c, s, id, client, v3, pick);
    b.(procs := s.procs[id := b.procs[id].(stage := KEYED)],
       cryptos := s.cryptos[client := ClientCipher(b.procs[id].sess.key, id)])
  }

  lemma KeyedReachable(c: Config, s: State, id: SessionId, client: Addr, v3: bool, pick: SlaveId)
    requires Reachable(c, s) && BeginEnabled(c, s, id, pick)
    ensures Reachable(c, Keyed(c, s, id, client, v3, pick))
  {
    var b := Begun(c, s, id, client, v3, pick);
    StepReachable(c, s, Begin(id, client, v3, pick));
    StepReachable(c, b, Handshake(id, StoreCipher));
    assert HandshakeNext(c, b, id, StoreCipher).procs == s.procs[id := b.procs[id].(stage := KEYED)];
  }

  lemma OpenedReachable(c: Config, s: State, id: SessionId, port: Option<uint16>)
    requires Reachable(c, s) && id in s.procs && s.procs[id].stage == KEYED
    requires port.Some? ==> port.value !in s.sockets
    ensures var p := s.procs[id];
            Reachable(c, s.(procs := s.procs[id := p.(stage := OPENED, sess := p.sess.(dataPort := port))],
                            sockets := s.sockets + PortSet(port), firewall := s.firewall + PortSet(port)))
  {
    var l := HandshakeNext(c, s, id, Listen(port));
    StepReachable(c, s, Handshake(id, Listen(port)));
    StepReachable(c, l, Handshake(id, OpenPort));
    var p := s.procs[id];
    assert HandshakeNext(c, l, id, OpenPort).procs ==
      s.procs[id := p.(stage := OPENED, sess := p.sess.(dataPort := port))];
  }

  lemma EnteredReachable(
    c: Config, s: State, id: SessionId, client: Addr, v3: bool, pick: SlaveId, port: Option<uint16>)
    requires Reachable(c, s) && BeginEnabled(c, s, id, pick)
    requires port.Some? ==> port.value !in s.sockets
    ensures Reachable(c, Entered(c, s, id, client, v3, pick, port))
  {
    var k := Keyed(c, s, id, client, v3, pick);
    KeyedReachable(c, s, id, client, v3, pick);
    OpenedReachable(c, k, id, port);
    var p := k.procs[id];
    assert k.procs[id := p.(stage := OPENED, sess := p.sess.(dataPort := port))]
        == Entered(c, s, id, client, v3, pick, port).procs;
  }

  /** The state once a registered session has been announced to all that are to be told. */
  function AnnouncedAll(c: Config, s: State, id: SessionId): State
    requires id in s.procs
  {
    var p := s.procs[id];
    s.(procs := s.procs[id := p.(stage := LIVE, announced := Targets(c, p))],
       slaves := SlavesTold(s.slaves, Targets(c, p) - p.announced, NewSession(AnnouncementOf(p.sess))))
  }

  lemma AnnouncedNone(c: Config, s: State, id: SessionId)
    requires Reachable(c, s) && id in s.procs && s.procs[id].stage == ANNOUNCING
    requires s.procs[id].announced == Targets(c, s.procs[id])
    ensures Reachable(c, AnnouncedAll(c, s, id))
  {
    StepReachable(c, s, Handshake(id, Finish));
    var p := s.procs[id];
    assert SlavesTold(s.slaves, Targets(c, p) - p.announced, NewSession(AnnouncementOf(p.sess))) == s.slaves;
  }

  lemma AnnouncedOne(c: Config, s: State, id: SessionId, q: SlaveId) returns (n: State)
    requires Reachable(c, s) && id in s.procs && s.procs[id].stage == ANNOUNCING && q in s.slaves
    requires q in Targets(c, s.procs[id]) && q !in s.procs[id].announced
    ensures Reachable(c, n) && id in n.procs && AnnouncedAll(c, n, id) == AnnouncedAll(c, s, id)
    ensures n.procs[id] == s.procs[id].(announced := s.procs[id].announced + {q}) && n.slaves.Keys == s.slaves.Keys
  {
    n := HandshakeNext(c, s, id, Announce(q));
    StepReachable(c, s, Handshake(id, Announce(q)));
    var p := s.procs[id];
    var p', rest := p.(announced := p.announced + {q}), Targets(c, p) - p.announced;
    assert Targets(c, p') - p'.announced == rest - {q};
    SentToOneMore(s.slaves, rest, q, NewSession(AnnouncementOf(p.sess)));
    assert s.procs[id := p'][id := p'.(stage := LIVE, announced := Targets(c, p'))]
        == s.procs[id := p.(stage := LIVE, announced := Targets(c, p))];
  }

  lemma {:induction false} AnnouncedReachable(c: Config, s: State, id: SessionId)
    requires Reachable(c, s) && id in s.procs && s.procs[id].stage == ANNOUNCING
    requires s.procs[id].announced <= Targets(c, s.procs[id]) <= s.slaves.Keys
    ensures Reachable(c, AnnouncedAll(c, s, id))
    decreases |Targets(c, s.procs[id]) - s.procs[id].announced|
  {
    var targets, told := Targets(c, s.procs[id]), s.procs[id].announced;
    if q :| q in targets && q !in told {
      var n := AnnouncedOne(c, s, id, q);
      FewerLeft(targets, told, q);
      AnnouncedReachable(c, n, id);
    } else {
      assert told == targets;
      AnnouncedNone(c, s, id);
    }
  }

  /** The state after a whole handshake. */
  function Welcomed(
    c: Config, s: State, id: SessionId, client: Addr, v3: bool, pick: SlaveId, port: Option<uint16>): State
    requires BeginEnabled(c, s, id, pick)
  {
    var e := Entered(c, s, id, client, v3, pick, port);
    var p := e.procs[id];
    e.(procs := s.procs[id := p.(stage := LIVE, announced := Targets(c, p))],
       table := Added(s.table, p.sess), pins := s.pins[id := pick],
       slaves := SlavesTold(s.slaves, Targets(c, p), NewSession(AnnouncementOf(p.sess))))
  }

  lemma RegisteredThenAnnounced(
    c: Config, s: State, id: SessionId, client: Addr, v3: bool, pick: SlaveId, port: Option<uint16>)
    requires BeginEnabled(c, s, id, pick)
    ensures var r := HandshakeNext(c, Entered(c, s, id, client, v3, pick, port), id, Register);
            && r.procs[id].stage == ANNOUNCING && r.procs[id].announced == {} && r.slaves == s.slaves
            && r.procs[id].v3 == v3 && r.procs[id].pick == pick
            && AnnouncedAll(c, r, id) == Welcomed(c, s, id, client, v3, pick, port)
  {
    var e := Entered(c, s, id, client, v3, pick, port);
    var r := HandshakeNext(c, e, id, Register);
    var p := r.procs[id];
    assert Targets(c, p) - p.announced == Targets(c, p);
    assert r.procs[id := p.(stage := LIVE, announced := Targets(c, p))]
        == s.procs[id := p.(stage := LIVE, announced := Targets(c, p))];
  }

  lemma WelcomedTables(
    c: Config, s: State, id: SessionId, client: Addr, v3: bool, pick: SlaveId, port: Option<uint16>)
    requires BeginEnabled(c, s, id, pick) && s.slaves.Keys == c.slaveIds
    ensures var n := Welcomed(c, s, id, client, v3, pick, port);
            TablesOf(n) == Joined(TablesOf(s), n.procs[id].sess, pick, if v3 then s.slaves.Keys else {pick})
  {
  }

  /**
   The steps of a handshake, taken without interruption, have together the effect
   that `MasterNode.Master.HandleHandshake` has on its tables.
   */
  lemma UninterruptedHandshake(
    c: Config, s: State, id: SessionId, client: Addr, v3: bool, pick: SlaveId, port: Option<uint16>)
    requires Reachable(c, s) && BeginEnabled(c, s, id, pick)
    requires port.Some? ==> port.value !in s.sockets
    ensures var n := Welcomed(c, s, id, client, v3, pick, port);
            var ip := s.pool.available[0];
            && Reachable(c, n) && n.procs[id].sess == Session(id, client, ip, SessionKey(c.token, ip), port)
            && TablesOf(n) == Joined(TablesOf(s), n.procs[id].sess, pick, if v3 then s.slaves.Keys else {pick})
  {
    SlavesConnected(c, s);
    EnteredReachable(c, s, id, client, v3, pick, port);
    var e := Entered(c, s, id, client, v3, pick, port);
    StepReachable(c, e, Handshake(id, Register));
    RegisteredThenAnnounced(c, s, id, client, v3, pick, port);
    AnnouncedReachable(c, HandshakeNext(c, e, id, Register), id);
    WelcomedTables(c, s, id, client, v3, pick, port);
  }

  // ----- an uninterrupted removal -----

  /** The state of a removal up to, and without, dropping the client's cipher. */
  function Unrelayed(s: State, id: SessionId): State
    requires id in s.procs
  {
    var sess := s.procs[id].sess;
    s.(procs := s.procs[id := s.procs[id].(stage := UNKEYING)], table := Removed(s.table, id),
       pool := Released(s.pool, sess.ip), firewall := s.firewall - PortSet(sess.dataPort),
       sockets := s.sockets - PortSet(sess.dataPort), uplink := s.uplink - {sess.ip})
  }

  lemma ClosedReachable(c: Config, s: State, id: SessionId)
    requires Reachable(c, s) && id in s.procs && s.procs[id].stage == LIVE
    ensures var sess := s.procs[id].sess;
            Reachable(c, s.(procs := s.procs[id := s.procs[id].(stage := UNBINDING)], table := Removed(s.table, id),
              pool := Released(s.pool, sess.ip), firewall := s.firewall - PortSet(sess.dataPort)))
  {
    var s1 := HookNext(c, s, id, Remove);
    StepReachable(c, s, Hook(id, Remove));
    var s2 := HookNext(c, s1, id, ReleaseIp);
    StepReachable(c, s1, Hook(id, ReleaseIp));
    var s3 := HookNext(c, s2, id, ClosePort);
    StepReachable(c, s2, Hook(id, ClosePort));
    assert s3.procs == s.procs[id := s.procs[id].(stage := UNBINDING)];
  }

  lemma UnrelayedReachable(c: Config, s: State, id: SessionId)
    requires Reachable(c, s) && id in s.procs && s.procs[id].stage == LIVE
    ensures Reachable(c, Unrelayed(s, id))
  {
    var sess := s.procs[id].sess;
    var s1 := s.(procs := s.procs[id := s.procs[id].(stage := UNBINDING)], table := Removed(s.table, id),
                 pool := Released(s.pool, sess.ip), firewall := s.firewall - PortSet(sess.dataPort));
    ClosedReachable(c, s, id);
    var s2 := HookNext(c, s1, id, CloseSocket);
    StepReachable(c, s1, Hook(id, CloseSocket));
    var s3 := HookNext(c, s2, id, DropRelayCipher);
    StepReachable(c, s2, Hook(id, DropRelayCipher));
    assert s3.procs == Unrelayed(s, id).procs;
  }

  /** The state once a session's end has been sent to all slaves. */
  function EndedAll(c: Config, s: State, id: SessionId): State
    requires id in s.procs
  {
    var p := s.procs[id];
    s.(procs := s.procs[id := p.(stage := GONE, ended := c.slaveIds)],
       slaves := SlavesTold(s.slaves, c.slaveIds - p.ended, SessionEnd(id)))
  }

  lemma EndedNone(c: Config, s: State, id: SessionId)
    requires Reachable(c, s) && id in s.procs && s.procs[id].stage == ENDING && s.procs[id].ended == c.slaveIds
    ensures Reachable(c, EndedAll(c, s, id))
  {
    StepReachable(c, s, Hook(id, EndHook));
    assert SlavesTold(s.slaves, c.slaveIds - s.procs[id].ended, SessionEnd(id)) == s.slaves;
  }

  lemma EndedOne(c: Config, s: State, id: SessionId, q: SlaveId) returns (n: State)
    requires Reachable(c, s) && id in s.procs && s.procs[id].stage == ENDING && q in s.slaves
    requires q in c.slaveIds && q !in s.procs[id].ended
    ensures Reachable(c, n) && id in n.procs && EndedAll(c, n, id) == EndedAll(c, s, id)
    ensures n.procs[id] == s.procs[id].(ended := s.procs[id].ended + {q}) && n.slaves.Keys == s.slaves.Keys
  {
    n := HookNext(c, s, id, SendEnd(q));
    StepReachable(c, s, Hook(id, SendEnd(q)));
    var p := s.procs[id];
    var p', rest := p.(ended := p.ended + {q}), c.slaveIds - p.ended;
    assert c.slaveIds - p'.ended == rest - {q};
    SentToOneMore(s.slaves, rest, q, SessionEnd(id));
    assert s.procs[id := p'][id := p'.(stage := GONE, ended := c.slaveIds)]
        == s.procs[id := p.(stage := GONE, ended := c.slaveIds)];
  }

  lemma {:induction false} EndedReachable(c: Config, s: State, id: SessionId)
    requires Reachable(c, s) && id in s.procs && s.procs[id].stage == ENDING
    requires s.procs[id].ended <= c.slaveIds <= s.slaves.Keys
    ensures Reachable(c, EndedAll(c, s, id))
    decreases |c.slaveIds - s.procs[id].ended|
  {
    var told := s.procs[id].ended;
    if q :| q in c.slaveIds && q !in told {
      var n := EndedOne(c, s, id, q);
      FewerLeft(c.slaveIds, told, q);
      EndedReachable(c, n, id);
    } else {
      assert told == c.slaveIds;
      EndedNone(c, s, id);
    }
  }

  /** The state after a whole removal. */
  function Gone(c: Config, s: State, id: SessionId): State
    requires id in s.procs
  {
    var u := Unrelayed(s, id);
    u.(procs := s.procs[id := s.procs[id].(stage := GONE, ended := c.slaveIds)],
       cryptos := s.cryptos - {s.procs[id].sess.client},
       slaves := SlavesTold(s.slaves, s.slaves.Keys, SessionEnd(id)))
  }

  lemma UnkeyedThenEnded(c: Config, s: State, id: SessionId)
    requires id in s.procs && s.procs[id].ended == {} && s.slaves.Keys == c.slaveIds
    ensures var d := HookNext(c, Unrelayed(s, id), id, DropClientCipher);
            && d.procs[id].stage == ENDING && d.procs[id].ended == {} && d.slaves == s.slaves
            && EndedAll(c, d, id) == Gone(c, s, id)
  {
    var d := HookNext(c, Unrelayed(s, id), id, DropClientCipher);
    var p := d.procs[id];
    assert c.slaveIds - p.ended == s.slaves.Keys;
    assert d.procs[id := p.(stage := GONE, ended := c.slaveIds)]
        == s.procs[id := s.procs[id].(stage := GONE, ended := c.slaveIds)];
  }

  lemma GoneTables(c: Config, s: State, id: SessionId)
    requires id in s.procs && id in s.table.byID && s.table.byID[id] == s.procs[id].sess && s.procs[id].sess.id == id
    ensures TablesOf(Gone(c, s, id)) == Reaped(TablesOf(s), id)
  {
  }

  /**
   The steps of a removal, taken without interruption up to the last message to the
   slaves, have together the effect of `MasterNode.Master.Reap`.
   */
  lemma UninterruptedRemoval(c: Config, s: State, id: SessionId)
    requires Reachable(c, s) && id in s.procs && s.procs[id].stage == LIVE
    ensures Reachable(c, Gone(c, s, id)) && TablesOf(Gone(c, s, id)) == Reaped(TablesOf(s), id)
  {
    SlavesConnected(c, s);
    ReachableLive(c, s, id);
    UnrelayedReachable(c, s, id);
    StepReachable(c, Unrelayed(s, id), Hook(id, DropClientCipher));
    UnkeyedThenEnded(c, s, id);
    EndedReachable(c, HookNext(c, Unrelayed(s, id), id, DropClientCipher), id);
    GoneTables(c, s, id);
  }

  // ----- what can always go on -----

  lemma HandshakeGoesOn(c: Config, s: State, id: SessionId) returns (h: HandshakeStep)
    requires id in s.procs && s.procs[id].stage < LIVE
    requires s.procs[id].announced <= Targets(c, s.procs[id]) <= s.slaves.Keys
    ensures HandshakeEnabled(c, s, id, h) && h != Abort
  {
    var p := s.procs[id];
    match p.stage
    case 0 => h := StoreCipher;
    case 1 => h := Listen(None);
    case 2 => h := OpenPort;
    case 3 => h := Register;
    case _ =>
      if q :| q in Targets(c, p) && q !in p.announced {
        h := Announce(q);
      } else {
        assert p.announced == Targets(c, p);
        h := Finish;
      }
  }

  lemma HookGoesOn(c: Config, s: State, id: SessionId) returns (k: HookStep)
    requires id in s.procs && LIVE <= s.procs[id].stage < GONE
    requires s.procs[id].ended <= c.slaveIds <= s.slaves.Keys
    ensures HookEnabled(c, s, id, k)
  {
    var p := s.procs[id];
    match p.stage
    case 5 => k := Remove;
    case 6 => k := ReleaseIp;
    case 7 => k := ClosePort;
    case 8 => k := CloseSocket;
    case 9 => k := DropRelayCipher;
    case 10 => k := DropClientCipher;
    case _ =>
      if q :| q in c.slaveIds && q !in p.ended {
        k := SendEnd(q);
      } else {
        assert p.ended == c.slaveIds;
        k := EndHook;
      }
  }

  /** No session is ever stuck: in every reachable state its handshake, removal or hook can go on. */
  lemma NeverStuck(c: Config, s: State, id: SessionId) returns (a: Action)
    requires Reachable(c, s) && id in s.procs && s.procs[id].stage < GONE
    ensures Enabled(c, s, a) && (a.Handshake? || a.Hook?) && a.id == id && a != Handshake(id, Abort)
  {
    SlavesConnected(c, s);
    ReachableProc(c, s, id);
    if s.procs[id].stage < LIVE {
      var h := HandshakeGoesOn(c, s, id);
      a := Handshake(id, h);
    } else {
      var k := HookGoesOn(c, s, id);
      a := Hook(id, k);
    }
  }

  /** A handshake can begin exactly when some address of the pool is not held by any session. */
  lemma BeginsExactly(c: Config, s: State, id: SessionId, client: Addr, v3: bool, pick: SlaveId)
    requires Reachable(c, s) && id !in s.procs && pick in c.slaveIds
    ensures Enabled(c, s, Begin(id, client, v3, pick)) <==> exists ip :: ip in c.addresses && !Held(s.procs, ip)
  {
    ReachableInv(c, s);
    if s.pool.available != [] {
      assert s.pool.available[0] in s.pool.available;
    }
  }

  /** A handshake that fails behind its draw gives the address back. */
  lemma FailureReturnsAddress(c: Config, s: State, id: SessionId)
    requires Reachable(c, s) && id in s.procs && s.procs[id].stage == DRAWN
    ensures Enabled(c, s, Handshake(id, Abort))
    ensures Next(c, s, Handshake(id, Abort)).pool.available == s.pool.available + [s.procs[id].sess.ip]
  {
  }

  /** A live session can be pinned to every connected slave; every slave can handle what is queued, and be punched. */
  lemma SlavesCanAct(c: Config, s: State, q: SlaveId)
    requires Reachable(c, s) && q in c.slaveIds
    ensures q in s.slaves && (s.slaves[q].queue != [] ==> TrafficEnabled(c, s, Deliver(q)))
    ensures forall id :: id in s.procs && s.procs[id].stage == LIVE ==>
              TrafficEnabled(c, s, Choose(s.procs[id].sess.ip, q))
    ensures forall ip, src :: TrafficEnabled(c, s, Punch(q, ip, src))
  {
    SlavesConnected(c, s);
    forall id | id in s.procs && s.procs[id].stage == LIVE
      ensures TrafficEnabled(c, s, Choose(s.procs[id].sess.ip, q))
    {
      LiveAtAddress(c, s, id);
    }
  }

  /**
   Which client packets are taken up: on a control socket those from the address of a
   session in the client index, from the relay those for the address of a session in
   the table, on a data socket all while a registered session's socket is open.
   */
  lemma PacketsTakenExactly(c: Config, s: State, n: nat, from: Addr, ip: IPv4, id: SessionId, ct: Cipher)
    requires Reachable(c, s) && n !in s.received
    ensures TrafficEnabled(c, s, ControlPacket(n, from, ct)) <==> from in s.table.byClient
    ensures TrafficEnabled(c, s, RelayPacket(n, ip, ct)) <==> HasSession(s.procs, ip)
    ensures TrafficEnabled(c, s, DataPacket(id, ct)) <==>
              && id in s.procs && s.procs[id].sess.dataPort.Some?
              && ANNOUNCING <= s.procs[id].stage <= UNBINDING
  {
    AddressFoundExactly(c, s, ip);
  }

  ghost predicate HasSession(procs: Procs, ip: IPv4) {
    exists j :: j in procs && procs[j].InTable() && procs[j].sess.ip == ip
  }

  lemma AddressFoundExactly(c: Config, s: State, ip: IPv4)
    requires Reachable(c, s)
    ensures ip in s.table.byTunIP <==> HasSession(s.procs, ip)
  {
    ReachableParts(c, s);
    var procs, t := s.procs, s.table;
    if ip in t.byTunIP {
      var j := t.byTunIP[ip].id;
      assert procs[j].InTable() && procs[j].sess.ip == ip;
    }
    forall j | j in procs && procs[j].InTable() && procs[j].sess.ip == ip ensures ip in t.byTunIP {
      assert t.byID[j] == procs[j].sess;
    }
  }

  lemma ReachableProc(c: Config, s: State, id: SessionId)
    requires Reachable(c, s) && id in s.procs
    ensures ProcOk(c, id, s.procs[id]) && Targets(c, s.procs[id]) <= c.slaveIds
  {
    ReachableInv(c, s);
  }

  lemma ReachableParts(c: Config, s: State)
    requires Reachable(c, s)
    ensures ProcsOk(c, s.procs) && TableOk(s.procs, s.table) && CiphersOk(c, s.procs, s.cryptos, s.uplink)
  {
    ReachableInv(c, s);
  }

  lemma LiveAtAddress(c: Config, s: State, id: SessionId)
    requires Reachable(c, s) && id in s.procs && s.procs[id].stage == LIVE
    ensures var sess := s.procs[id].sess; sess.ip in s.table.byTunIP && s.table.byTunIP[sess.ip] == sess
  {
    ReachableParts(c, s);
    assert s.table.byID[id] == s.procs[id].sess;
  }

  /** A client packet on a live session's data socket is handed on. */
  lemma DataGoesThrough(c: Config, s: State, id: SessionId, nonce: nat, pkt: seq<byte>)
    requires Reachable(c, s) && id in s.procs && s.procs[id].stage == LIVE && s.procs[id].sess.dataPort.Some?
    requires ComesFrom(pkt, s.procs[id].sess.ip)
    ensures var sess := s.procs[id].sess;
            var key := SessionKey(c.token, sess.ip);
            var t := DataPacket(id, Seal(key, nonce, pkt));
            TrafficEnabled(c, s, t)
            && TrafficNext(c, s, t).injected == s.injected + [Injection(DataPath, sess, key, pkt)]
  {
    ReachableParts(c, s);
    DataStepExact(c, s, id, Seal(SessionKey(c.token, s.procs[id].sess.ip), nonce, pkt));
  }

  /** A client packet relayed for a live session is handed on. */
  lemma RelayGoesThrough(c: Config, s: State, id: SessionId, n: nat, nonce: nat, pkt: seq<byte>)
    requires Reachable(c, s) && id in s.procs && s.procs[id].stage == LIVE && n !in s.received
    requires ComesFrom(pkt, s.procs[id].sess.ip)
    ensures var sess := s.procs[id].sess;
            var key := SessionKey(c.token, sess.ip);
            var t := RelayPacket(n, sess.ip, Seal(key, nonce, pkt));
            && TrafficEnabled(c, s, t) && TrafficEnabled(c, TrafficNext(c, s, t), FinishRead(n))
            && TrafficNext(c, TrafficNext(c, s, t), FinishRead(n)).injected
               == s.injected + [Injection(RelayPath, sess, key, pkt)]
  {
    ReachableParts(c, s);
    LiveAtAddress(c, s, id);
    var sess := s.procs[id].sess;
    RelayThrough(c, s, n, sess.ip, Seal(SessionKey(c.token, sess.ip), nonce, pkt));
  }

  /** A client packet on a control socket is handed on if its address finds one session's entry and cipher. */
  lemma ControlGoesThrough(c: Config, s: State, from: Addr, n: nat, nonce: nat, pkt: seq<byte>)
    requires Reachable(c, s) && from in s.table.byClient && n !in s.received
    requires from in s.cryptos && s.cryptos[from].owner == s.table.byClient[from].id
    requires ComesFrom(pkt, s.table.byClient[from].ip)
    ensures var sess := s.table.byClient[from];
            var key := SessionKey(c.token, sess.ip);
            var t := ControlPacket(n, from, Seal(key, nonce, pkt));
            && TrafficEnabled(c, s, t) && TrafficEnabled(c, TrafficNext(c, s, t), FinishRead(n))
            && TrafficNext(c, TrafficNext(c, s, t), FinishRead(n)).injected
               == s.injected + [Injection(ControlPath, sess, key, pkt)]
  {
    OwnCipher(c, s, from);
    ControlThrough(c, s, n, from, Seal(s.cryptos[from].key, nonce, pkt));
  }

  lemma OwnCipher(c: Config, s: State, from: Addr)
    requires Reachable(c, s) && from in s.table.byClient
    requires from in s.cryptos && s.cryptos[from].owner == s.table.byClient[from].id
    ensures s.cryptos[from].key == SessionKey(c.token, s.table.byClient[from].ip)
  {
    ReachableInv(c, s);
    assert ProcOk(c, s.cryptos[from].owner, s.procs[s.cryptos[from].owner]);
  }

  // ----- concrete runs -----

  const CLIENT := Addr(1, 1)
  const ELSEWHERE := Addr(2, 2)

  function TwoSlaves(): Config {
    Config([], [10, 11], {0, 1})
  }

  /** Session 7 of a version 2 client, announced to slave 0 alone. */
  function OneSession(): State {
    Welcomed(TwoSlaves(), Init(TwoSlaves()), 7, CLIENT, false, 0, None)
  }

  lemma OneSessionReachable()
    ensures Reachable(TwoSlaves(), OneSession())
  {
    InitReachable(TwoSlaves());
    UninterruptedHandshake(TwoSlaves(), Init(TwoSlaves()), 7, CLIENT, false, 0, None);
  }

  /**
   A version 2 session is announced to one slave only, yet a slave choice can pin
   it to another, which then has nothing to forward to.
   */
  lemma RepinnedVersion2Undelivered(pkt: seq<byte>) returns (s: State)
    requires GoesTo(pkt, 10)
    ensures Reachable(TwoSlaves(), s)
    ensures && 7 in s.procs && s.procs[7].stage == LIVE && GoesTo(pkt, s.procs[7].sess.ip)
            && Routed(s, pkt) == Some(1) && 1 in s.slaves && s.slaves[1].queue == []
            && !Delivers(TwoSlaves(), s.slaves[1].sessions, 0, pkt, s.procs[7].sess)
  {
    var c, s1 := TwoSlaves(), OneSession();
    OneSessionReachable();
    s := TrafficNext(c, s1, Choose(10, 1));
    StepReachable(c, s1, Traffic(Choose(10, 1)));
  }

  /** A punch from another address takes the packets of a session there. */
  lemma PunchedElsewhere(pkt: seq<byte>) returns (s: State)
    requires GoesTo(pkt, 10)
    ensures Reachable(TwoSlaves(), s)
    ensures && 7 in s.procs && s.procs[7].stage == LIVE && s.procs[7].sess.client == CLIENT
            && Routed(s, pkt) == Some(0) && 0 in s.slaves && s.slaves[0].queue == []
            && Forwards(TwoSlaves(), s.slaves[0].sessions, 0, pkt, s.procs[7].sess, ELSEWHERE)
            && !Delivers(TwoSlaves(), s.slaves[0].sessions, 0, pkt, s.procs[7].sess)
  {
    var c, s1 := TwoSlaves(), OneSession();
    OneSessionReachable();
    var s2 := TrafficNext(c, s1, Deliver(0));
    StepReachable(c, s1, Traffic(Deliver(0)));
    s := TrafficNext(c, s2, Punch(0, 10, ELSEWHERE));
    StepReachable(c, s2, Traffic(Punch(0, 10, ELSEWHERE)));
  }

  /**
   A client that shakes hands again: between its new cipher and its new session the
   look-ups disagree, and a packet taken up there is handed on under a key that is
   not that of the session looked up for it.
   */
  lemma RepeatedHandshakeMixesKeys(pkt: seq<byte>) returns (s: State, n: State)
    requires ComesFrom(pkt, 10)
    ensures Reachable(TwoSlaves(), s) && !Agrees(s)
    ensures Reachable(TwoSlaves(), n) && |n.injected| == 1
    ensures n.injected[0].sess.ip == 10 && n.injected[0].key == SessionKey([], 11)
  {
    s := KeyedAgain();
    assert s.cryptos[CLIENT].owner != s.table.byClient[CLIENT].id;
    n := PacketRead(s, pkt);
  }

  lemma KeyedAgain() returns (s: State)
    ensures Reachable(TwoSlaves(), s) && s.received == map[] && s.injected == []
    ensures CLIENT in s.table.byClient && s.table.byClient[CLIENT].ip == 10 && s.table.byClient[CLIENT].id == 7
    ensures CLIENT in s.cryptos && s.cryptos[CLIENT].key == SessionKey([], 11) && s.cryptos[CLIENT].owner == 8
  {
    var c, s1 := TwoSlaves(), OneSession();
    OneSessionReachable();
    s := Keyed(c, s1, 8, CLIENT, false, 0);
    KeyedReachable(c, s1, 8, CLIENT, false, 0);
  }

  /** The read of a packet sealed for tunnel address 11. */
  lemma PacketRead(s: State, pkt: seq<byte>) returns (n: State)
    requires Reachable(TwoSlaves(), s) && ComesFrom(pkt, 10) && s.received == map[] && s.injected == []
    requires CLIENT in s.table.byClient && s.table.byClient[CLIENT].ip == 10
    requires CLIENT in s.cryptos && s.cryptos[CLIENT].key == SessionKey([], 11)
    ensures Reachable(TwoSlaves(), n) && |n.injected| == 1
    ensures n.injected[0].sess.ip == 10 && n.injected[0].key == SessionKey([], 11)
  {
    FilterExact(pkt, 10);
    var c, ct := TwoSlaves(), Seal(SessionKey([], 11), 0, pkt);
    var s1 := TrafficNext(c, s, ControlPacket(0, CLIENT, ct));
    StepReachable(c, s, Traffic(ControlPacket(0, CLIENT, ct)));
    n := TrafficNext(c, s1, FinishRead(0));
    StepReachable(c, s1, Traffic(FinishRead(0)));
  }

  /**
   Two handshakes from one client address that interleave leave the client index
   at one session and the cipher index at the other, with both in the table.
   */
  lemma CrossedHandshakesDisagree() returns (s: State)
    ensures Reachable(TwoSlaves(), s) && !Agrees(s) && !ClientsComplete(s.table)
    ensures 7 in s.table.byID && 8 in s.table.byID
    ensures s.received == map[] && s.injected == []
    ensures CLIENT in s.table.byClient && s.table.byClient[CLIENT].ip == 10
    ensures CLIENT in s.cryptos && s.cryptos[CLIENT].key == SessionKey([], 11)
  {
    var c := TwoSlaves();
    InitReachable(c);
    var s1 := Entered(c, Init(c), 7, CLIENT, true, 0, None);
    EnteredReachable(c, Init(c), 7, CLIENT, true, 0, None);
    var s2 := Entered(c, s1, 8, CLIENT, true, 0, None);
    EnteredReachable(c, s1, 8, CLIENT, true, 0, None);
    var s3 := HandshakeNext(c, s2, 8, Register);
    StepReachable(c, s2, Handshake(8, Register));
    s := HandshakeNext(c, s3, 7, Register);
    StepReachable(c, s3, Handshake(7, Register));
    assert s.table.byClient[CLIENT].id == 7 && s.cryptos[CLIENT].owner == 8;
    assert s.table.byID[8].client == CLIENT;
  }

  /** There, too, a data packet is handed on under the key of a session it was not looked up for. */
  lemma CrossedHandshakesMixKeys(pkt: seq<byte>) returns (s: State)
    requires ComesFrom(pkt, 10)
    ensures Reachable(TwoSlaves(), s) && |s.injected| == 1
    ensures s.injected[0].sess.ip == 10 && s.injected[0].key == SessionKey([], 11)
  {
    var s1 := CrossedHandshakesDisagree();
    s := PacketRead(s1, pkt);
  }

  /**
   A client shakes hands again while the hook of its old session is pending, and
   the hook then drops the new session's cipher: the session is live and found by
   its client address, but has no cipher.
   */
  lemma StrandedSession() returns (s: State)
    ensures Reachable(TwoSlaves(), s) && Agrees(s) && ClientsComplete(s.table) && !CiphersComplete(s)
    ensures 8 in s.procs && s.procs[8].stage == LIVE
    ensures CLIENT in s.table.byClient && s.table.byClient[CLIENT] == s.procs[8].sess && CLIENT !in s.cryptos
  {
    var c, s1 := TwoSlaves(), OneSession();
    OneSessionReachable();
    var s2 := Unrelayed(s1, 7);
    UnrelayedReachable(c, s1, 7);
    var s3 := Welcomed(c, s2, 8, CLIENT, false, 0, None);
    UninterruptedHandshake(c, s2, 8, CLIENT, false, 0, None);
    s := HookNext(c, s3, 7, DropClientCipher);
    StepReachable(c, s3, Hook(7, DropClientCipher));
  }
}
