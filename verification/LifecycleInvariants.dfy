/** What every step of the lifecycle keeps, one predicate per shared structure. */
module LifecycleInvariants {
  import opened Wrappers
  import opened Bytes
  import opened Crypto
  import opened SessionTable
  import opened SlaveNode
  import opened Lifecycle

  type Procs = map<SessionId, Proc>

  ghost predicate ProcOk(c: Config, id: SessionId, p: Proc) {
    && p.sess.id == id
    && p.sess.key == SessionKey(c.token, p.sess.ip)
    && p.pick in c.slaveIds
    && p.announced <= Targets(c, p) && p.ended <= c.slaveIds
    && (p.stage < ANNOUNCING ==> p.announced == {})
    && (ANNOUNCING < p.stage < GONE ==> p.announced == Targets(c, p))
    && (p.stage < ENDING ==> p.ended == {})
    && (p.stage == GONE ==> p.announced <= p.ended)
  }

  ghost predicate ProcsOk(c: Config, procs: Procs) {
    forall id :: id in procs ==> ProcOk(c, id, procs[id])
  }

  // ----- tunnel addresses -----

  predicate Holds(procs: Procs, id: SessionId, ip: IPv4) {
    id in procs && procs[id].HoldsIp() && procs[id].sess.ip == ip
  }

  ghost predicate Held(procs: Procs, ip: IPv4) {
    exists id :: Holds(procs, id, ip)
  }

  ghost predicate IpsExclusive(procs: Procs) {
    forall i, j, ip :: Holds(procs, i, ip) && Holds(procs, j, ip) ==> i == j
  }

  /**
   Conservation: the first contents of the pool are the disjoint union of the
   available addresses and the held ones, without duplicates, and addresses are
   issued in the order in which they were first listed or came back.
   */
  ghost predicate PoolOk(c: Config, procs: Procs, pool: PoolState) {
    && pool.issued + pool.available == c.addresses + pool.returned
    && NoDuplicates(pool.available)
    && IpsExclusive(procs)
    && (forall ip :: ip in pool.available ==> !Held(procs, ip))
    && (forall ip :: ip in c.addresses <==> ip in pool.available || Held(procs, ip))
  }

  // ----- session table -----

  ghost predicate TableOk(procs: Procs, t: Indices) {
    && (forall id :: id in t.byID <==> id in procs && procs[id].InTable())
    && (forall id :: id in t.byID ==> t.byID[id] == procs[id].sess && procs[id].sess.id == id)
    && (forall ip :: ip in t.byTunIP ==>
          t.byTunIP[ip].ip == ip && t.byTunIP[ip].id in t.byID && t.byID[t.byTunIP[ip].id] == t.byTunIP[ip])
    && (forall id :: id in t.byID ==> t.byID[id].ip in t.byTunIP && t.byTunIP[t.byID[id].ip] == t.byID[id])
    && (forall a :: a in t.byClient ==>
          t.byClient[a].client == a && t.byClient[a].id in t.byID && t.byID[t.byClient[a].id] == t.byClient[a])
  }

  // ----- data ports -----

  predicate OwnsSocket(procs: Procs, id: SessionId, port: uint16) {
    id in procs && procs[id].HoldsSocket() && procs[id].sess.dataPort.value == port
  }

  predicate OwnsPort(procs: Procs, id: SessionId, port: uint16) {
    id in procs && procs[id].HoldsPort() && procs[id].sess.dataPort.value == port
  }

  /** Open sockets have one owner each; the firewall set is exactly the owned ports. */
  ghost predicate PortsOk(procs: Procs, sockets: set<uint16>, firewall: set<uint16>) {
    && (forall id, port :: OwnsSocket(procs, id, port) ==> port in sockets)
    && (forall i, j, port :: OwnsSocket(procs, i, port) && OwnsSocket(procs, j, port) ==> i == j)
    && (forall port :: port in firewall <==> exists id :: OwnsPort(procs, id, port))
  }

  // ----- ciphers -----

  ghost predicate CiphersOk(c: Config, procs: Procs, cryptos: map<Addr, ClientCipher>, uplink: map<IPv4, Key>) {
    && (forall a :: a in cryptos ==>
          var id := cryptos[a].owner;
          id in procs && procs[id].HoldsCipher() && procs[id].sess.client == a && procs[id].sess.key == cryptos[a].key)
    && (forall ip :: ip in uplink ==> uplink[ip] == SessionKey(c.token, ip))
  }

  // ----- packets -----

  /** The session is one that was registered. */
  predicate Registered(procs: Procs, sess: Session) {
    sess.id in procs && ANNOUNCING <= procs[sess.id].stage && procs[sess.id].sess == sess
  }

  ghost predicate ReadOk(procs: Procs, r: Read) {
    Registered(procs, r.sess) && (r.ControlRead? ==> r.sess.client == r.from)
  }

  ghost predicate InjectionOk(c: Config, procs: Procs, i: Injection) {
    && Registered(procs, i.sess)
    && SrcMatchesTunnel(i.pkt, i.sess.ip)
    && (i.path != ControlPath ==> i.key == SessionKey(c.token, i.sess.ip))
  }

  ghost predicate PacketsOk(c: Config, procs: Procs, received: map<nat, Read>, injected: seq<Injection>) {
    && (forall n :: n in received ==> ReadOk(procs, received[n]))
    && (forall i :: 0 <= i < |injected| ==> InjectionOk(c, procs, injected[i]))
  }

  // ----- downlink pins -----

  ghost predicate PinsOk(c: Config, procs: Procs, pins: map<SessionId, SlaveId>) {
    forall id :: id in procs && procs[id].InTable() ==> id in pins && pins[id] in c.slaveIds
  }

  // ----- slaves -----

  /** Which session a slave knows at each tunnel address. */
  function Owners(m: Entries): map<IPv4, SessionId> {
    map ip | ip in m :: m[ip].info.id
  }

  function OwnersAfter(m: map<IPv4, SessionId>, msg: ControlMsg): map<IPv4, SessionId> {
    match msg
    case NewSession(info) => m[info.ip := info.id]
    case SessionEnd(id) => map ip | ip in m && m[ip] != id :: m[ip]
  }

  /** The owners once the whole queue has been handled. */
  function Drained(m: map<IPv4, SessionId>, queue: seq<ControlMsg>): map<IPv4, SessionId>
    decreases |queue|
  {
    if queue == [] then m else Drained(OwnersAfter(m, queue[0]), queue[1..])
  }

  ghost predicate Announced(procs: Procs, q: SlaveId, info: Announcement) {
    info.id in procs && info == AnnouncementOf(procs[info.id].sess) && q in procs[info.id].announced
  }

  ghost predicate EntriesOk(c: Config, procs: Procs, q: SlaveId, m: Entries) {
    forall ip :: ip in m ==>
      m[ip].info.ip == ip && m[ip].key == SessionKey(c.token, ip) && Announced(procs, q, m[ip].info)
  }

  ghost predicate QueueOk(procs: Procs, q: SlaveId, queue: seq<ControlMsg>) {
    forall i :: 0 <= i < |queue| && queue[i].NewSession? ==> Announced(procs, q, queue[i].info)
  }

  /**
   The drained view holds only announced sessions whose end is not yet sent, and
   every announced session in the table.
   */
  ghost predicate ViewOk(procs: Procs, q: SlaveId, view: map<IPv4, SessionId>) {
    && (forall ip :: ip in view ==>
          var id := view[ip];
          id in procs && procs[id].sess.ip == ip && q in procs[id].announced && q !in procs[id].ended)
    && (forall id :: id in procs && procs[id].InTable() && q in procs[id].announced ==>
          procs[id].sess.ip in view && view[procs[id].sess.ip] == id)
  }

  ghost predicate SlaveOk(c: Config, procs: Procs, q: SlaveId, sl: Slave) {
    && EntriesOk(c, procs, q, sl.sessions)
    && QueueOk(procs, q, sl.queue)
    && ViewOk(procs, q, Drained(Owners(sl.sessions), sl.queue))
  }

  ghost predicate SlavesOk(c: Config, procs: Procs, slaves: map<SlaveId, Slave>) {
    slaves.Keys == c.slaveIds && forall q :: q in slaves ==> SlaveOk(c, procs, q, slaves[q])
  }

  ghost predicate Inv(c: Config, s: State) {
    && ProcsOk(c, s.procs)
    && PoolOk(c, s.procs, s.pool)
    && TableOk(s.procs, s.table)
    && PortsOk(s.procs, s.sockets, s.firewall)
    && CiphersOk(c, s.procs, s.cryptos, s.uplink)
    && PacketsOk(c, s.procs, s.received, s.injected)
    && PinsOk(c, s.procs, s.pins)
    && SlavesOk(c, s.procs, s.slaves)
  }

  // ----- the initial state -----

  lemma InitInv(c: Config)
    requires NoDuplicates(c.addresses)
    ensures Inv(c, Init(c))
  {
    assert [] + c.addresses == c.addresses + [];
  }

  // ----- one step, structure by structure -----

  lemma ProcsAfterHandshake(c: Config, s: State, id: SessionId, h: HandshakeStep)
    requires HandshakeEnabled(c, s, id, h) && ProcsOk(c, s.procs)
    ensures ProcsOk(c, HandshakeNext(c, s, id, h).procs)
  {
  }

  lemma ProcsAfterHook(c: Config, s: State, id: SessionId, k: HookStep)
    requires HookEnabled(c, s, id, k) && ProcsOk(c, s.procs)
    ensures ProcsOk(c, HookNext(c, s, id, k).procs)
  {
  }

  // Tunnel addresses.

  /** The two records hold the same address, or neither holds one. */
  predicate SameHold(procs: Procs, id: SessionId, p: Proc) {
    id in procs && (p.HoldsIp() <==> procs[id].HoldsIp()) && p.sess.ip == procs[id].sess.ip
  }

  lemma PoolFrame(c: Config, procs: Procs, id: SessionId, p: Proc, pool: PoolState)
    requires PoolOk(c, procs, pool) && SameHold(procs, id, p)
    ensures PoolOk(c, procs[id := p], pool)
  {
    var procs' := procs[id := p];
    assert forall j, ip :: Holds(procs', j, ip) <==> Holds(procs, j, ip);
    assert forall ip :: Held(procs', ip) <==> Held(procs, ip);
  }

  lemma PoolAllocated(c: Config, procs: Procs, id: SessionId, p: Proc, pool: PoolState)
    requires PoolOk(c, procs, pool) && id !in procs && pool.available != []
    requires p.HoldsIp() && p.sess.ip == pool.available[0]
    ensures PoolOk(c, procs[id := p], Allocated(pool))
  {
    var procs', pool' := procs[id := p], Allocated(pool);
    var ip0 := pool.available[0];
    assert Holds(procs', id, ip0);
    assert forall j, ip :: Holds(procs', j, ip) <==> Holds(procs, j, ip) || (j == id && ip == ip0);
    assert forall ip :: Held(procs', ip) <==> Held(procs, ip) || ip == ip0;
    assert pool.available == [ip0] + pool'.available;
    assert ip0 !in pool'.available;
    assert forall ip :: ip in pool.available <==> ip == ip0 || ip in pool'.available;
    assert pool'.issued + pool'.available == pool.issued + pool.available;
  }

  lemma PoolReleased(c: Config, procs: Procs, id: SessionId, p: Proc, pool: PoolState)
    requires PoolOk(c, procs, pool) && id in procs && procs[id].HoldsIp() && !p.HoldsIp()
    ensures PoolOk(c, procs[id := p], Released(pool, procs[id].sess.ip))
  {
    var procs', pool' := procs[id := p], Released(pool, procs[id].sess.ip);
    var ip0 := procs[id].sess.ip;
    assert Holds(procs, id, ip0);
    assert forall j, ip :: Holds(procs', j, ip) <==> Holds(procs, j, ip) && j != id;
    assert forall ip :: Held(procs', ip) <==> Held(procs, ip) && ip != ip0;
    assert ip0 !in pool.available;
    assert pool'.issued + pool'.available == (pool.issued + pool.available) + [ip0];
    assert c.addresses + pool'.returned == (c.addresses + pool.returned) + [ip0];
  }

  lemma PoolAfterHandshake(c: Config, s: State, id: SessionId, h: HandshakeStep)
    requires HandshakeEnabled(c, s, id, h) && PoolOk(c, s.procs, s.pool)
    ensures PoolOk(c, HandshakeNext(c, s, id, h).procs, HandshakeNext(c, s, id, h).pool)
  {
    var p := HandshakeProc(s.procs[id], h);
    if h == Abort {
      PoolReleased(c, s.procs, id, p, s.pool);
    } else {
      PoolFrame(c, s.procs, id, p, s.pool);
    }
  }

  lemma PoolAfterHook(c: Config, s: State, id: SessionId, k: HookStep)
    requires HookEnabled(c, s, id, k) && PoolOk(c, s.procs, s.pool)
    ensures PoolOk(c, HookNext(c, s, id, k).procs, HookNext(c, s, id, k).pool)
  {
    var p := HookProc(s.procs[id], k);
    if k == ReleaseIp {
      PoolReleased(c, s.procs, id, p, s.pool);
    } else {
      PoolFrame(c, s.procs, id, p, s.pool);
    }
  }

  // The session table.

  lemma TableFrame(procs: Procs, id: SessionId, p: Proc, t: Indices)
    requires TableOk(procs, t) && (p.InTable() <==> id in procs && procs[id].InTable())
    requires p.InTable() ==> p.sess == procs[id].sess
    ensures TableOk(procs[id := p], t)
  {
  }

  lemma TableAdded(procs: Procs, id: SessionId, p: Proc, t: Indices)
    requires TableOk(procs, t) && IpsExclusive(procs) && Holds(procs, id, p.sess.ip) && id !in t.byID
    requires p.InTable() && p.sess.id == id
    ensures TableOk(procs[id := p], Added(t, p.sess))
  {
    forall j | j in t.byID ensures t.byID[j].ip != p.sess.ip {
      assert Holds(procs, j, t.byID[j].ip);
    }
  }

  lemma TableRemoved(procs: Procs, id: SessionId, p: Proc, t: Indices)
    requires TableOk(procs, t) && id in t.byID && !p.InTable()
    ensures TableOk(procs[id := p], Removed(t, id))
  {
    var s := t.byID[id];
    assert forall j :: j in t.byID && j != id ==> t.byID[j].ip != s.ip by {
      assert forall j :: j in t.byID ==> t.byTunIP[t.byID[j].ip] == t.byID[j];
    }
  }

  lemma TableAfterHandshake(c: Config, s: State, id: SessionId, h: HandshakeStep)
    requires HandshakeEnabled(c, s, id, h) && ProcsOk(c, s.procs) && IpsExclusive(s.procs) && TableOk(s.procs, s.table)
    ensures TableOk(HandshakeNext(c, s, id, h).procs, HandshakeNext(c, s, id, h).table)
  {
    var p := HandshakeProc(s.procs[id], h);
    if h == Register {
      TableAdded(s.procs, id, p, s.table);
    } else {
      TableFrame(s.procs, id, p, s.table);
    }
  }

  lemma TableAfterHook(c: Config, s: State, id: SessionId, k: HookStep)
    requires HookEnabled(c, s, id, k) && TableOk(s.procs, s.table)
    ensures TableOk(HookNext(c, s, id, k).procs, HookNext(c, s, id, k).table)
  {
    var p := HookProc(s.procs[id], k);
    if k == Remove {
      TableRemoved(s.procs, id, p, s.table);
    } else {
      TableFrame(s.procs, id, p, s.table);
    }
  }

  // Data ports.

  lemma PortsFrame(procs: Procs, id: SessionId, p: Proc, sockets: set<uint16>, firewall: set<uint16>)
    requires PortsOk(procs, sockets, firewall)
    requires p.HoldsSocket() <==> id in procs && procs[id].HoldsSocket()
    requires p.HoldsPort() <==> id in procs && procs[id].HoldsPort()
    requires p.HoldsSocket() ==> p.sess.dataPort == procs[id].sess.dataPort
    ensures PortsOk(procs[id := p], sockets, firewall)
  {
    var procs' := procs[id := p];
    assert forall j, port: uint16 :: OwnsSocket(procs', j, port) <==> OwnsSocket(procs, j, port);
    assert forall j, port: uint16 :: OwnsPort(procs', j, port) <==> OwnsPort(procs, j, port);
  }

  lemma PortsBound(procs: Procs, id: SessionId, p: Proc, sockets: set<uint16>, firewall: set<uint16>)
    requires PortsOk(procs, sockets, firewall) && id in procs && !procs[id].HoldsSocket() && !procs[id].HoldsPort()
    requires p.stage == BOUND && (p.sess.dataPort.Some? ==> p.sess.dataPort.value !in sockets)
    ensures PortsOk(procs[id := p], sockets + PortSet(p.sess.dataPort), firewall)
  {
    var procs' := procs[id := p];
    assert forall j, port: uint16 :: OwnsSocket(procs', j, port) ==>
      OwnsSocket(procs, j, port) || (j == id && p.sess.dataPort == Some(port));
    assert forall j, port: uint16 :: OwnsPort(procs', j, port) <==> OwnsPort(procs, j, port);
  }

  lemma PortsOpened(procs: Procs, id: SessionId, p: Proc, sockets: set<uint16>, firewall: set<uint16>)
    requires PortsOk(procs, sockets, firewall) && id in procs && procs[id].stage == BOUND
    requires p == procs[id].(stage := OPENED)
    ensures PortsOk(procs[id := p], sockets, firewall + PortSet(p.sess.dataPort))
  {
    var procs' := procs[id := p];
    assert forall j, port: uint16 :: OwnsSocket(procs', j, port) <==> OwnsSocket(procs, j, port);
    assert forall j, port: uint16 :: OwnsPort(procs', j, port) <==>
      OwnsPort(procs, j, port) || (j == id && p.sess.dataPort == Some(port));
    assert p.sess.dataPort.Some? ==> OwnsPort(procs', id, p.sess.dataPort.value);
  }

  /** Deleting a port never hits another session's: its socket is still open here. */
  lemma PortsClosed(procs: Procs, id: SessionId, p: Proc, sockets: set<uint16>, firewall: set<uint16>)
    requires PortsOk(procs, sockets, firewall) && id in procs && procs[id].stage == CLOSING
    requires p == procs[id].(stage := UNBINDING)
    ensures PortsOk(procs[id := p], sockets, firewall - PortSet(p.sess.dataPort))
  {
    var procs' := procs[id := p];
    assert forall j, port: uint16 :: OwnsSocket(procs', j, port) <==> OwnsSocket(procs, j, port);
    assert forall j, port: uint16 :: OwnsPort(procs', j, port) <==> OwnsPort(procs, j, port) && j != id;
    assert forall j, port: uint16 :: OwnsPort(procs, j, port) ==> OwnsSocket(procs, j, port);
    assert p.sess.dataPort.Some? ==> OwnsSocket(procs, id, p.sess.dataPort.value);
  }

  lemma PortsUnbound(procs: Procs, id: SessionId, p: Proc, sockets: set<uint16>, firewall: set<uint16>)
    requires PortsOk(procs, sockets, firewall) && id in procs && procs[id].stage == UNBINDING
    requires p == procs[id].(stage := UNCACHING)
    ensures PortsOk(procs[id := p], sockets - PortSet(p.sess.dataPort), firewall)
  {
    var procs' := procs[id := p];
    assert forall j, port: uint16 :: OwnsSocket(procs', j, port) <==> OwnsSocket(procs, j, port) && j != id;
    assert forall j, port: uint16 :: OwnsPort(procs', j, port) <==> OwnsPort(procs, j, port);
    assert p.sess.dataPort.Some? ==> OwnsSocket(procs, id, p.sess.dataPort.value);
  }

  lemma PortsAfterHandshake(c: Config, s: State, id: SessionId, h: HandshakeStep)
    requires HandshakeEnabled(c, s, id, h) && PortsOk(s.procs, s.sockets, s.firewall)
    ensures var n := HandshakeNext(c, s, id, h); PortsOk(n.procs, n.sockets, n.firewall)
  {
    var p := HandshakeProc(s.procs[id], h);
    match h
    case Listen(port) => PortsBound(s.procs, id, p, s.sockets, s.firewall);
    case OpenPort => PortsOpened(s.procs, id, p, s.sockets, s.firewall);
    case _ => PortsFrame(s.procs, id, p, s.sockets, s.firewall);
  }

  lemma PortsAfterHook(c: Config, s: State, id: SessionId, k: HookStep)
    requires HookEnabled(c, s, id, k) && PortsOk(s.procs, s.sockets, s.firewall)
    ensures var n := HookNext(c, s, id, k); PortsOk(n.procs, n.sockets, n.firewall)
  {
    var p := HookProc(s.procs[id], k);
    match k
    case ClosePort => PortsClosed(s.procs, id, p, s.sockets, s.firewall);
    case CloseSocket => PortsUnbound(s.procs, id, p, s.sockets, s.firewall);
    case _ => PortsFrame(s.procs, id, p, s.sockets, s.firewall);
  }

  // Ciphers.

  /** The session goes on holding its cipher, if it held one, for the same address and key. */
  predicate KeepsCipher(procs: Procs, id: SessionId, p: Proc) {
    id in procs && procs[id].HoldsCipher() ==>
      p.HoldsCipher() && p.sess.client == procs[id].sess.client && p.sess.key == procs[id].sess.key
  }

  lemma CiphersFrame(
    c: Config, procs: Procs, id: SessionId, p: Proc, cryptos: map<Addr, ClientCipher>, uplink: map<IPv4, Key>)
    requires CiphersOk(c, procs, cryptos, uplink) && KeepsCipher(procs, id, p)
    ensures CiphersOk(c, procs[id := p], cryptos, uplink)
  {
  }

  lemma CiphersStored(
    c: Config, procs: Procs, id: SessionId, p: Proc, cryptos: map<Addr, ClientCipher>, uplink: map<IPv4, Key>)
    requires CiphersOk(c, procs, cryptos, uplink) && KeepsCipher(procs, id, p) && p.HoldsCipher()
    ensures CiphersOk(c, procs[id := p], cryptos[p.sess.client := ClientCipher(p.sess.key, id)], uplink)
  {
  }

  lemma CiphersDropped(
    c: Config, procs: Procs, id: SessionId, p: Proc, cryptos: map<Addr, ClientCipher>, uplink: map<IPv4, Key>)
    requires CiphersOk(c, procs, cryptos, uplink) && id in procs && p.sess == procs[id].sess
    ensures CiphersOk(c, procs[id := p], cryptos - {p.sess.client}, uplink)
  {
  }

  lemma CiphersAfterHandshake(c: Config, s: State, id: SessionId, h: HandshakeStep)
    requires HandshakeEnabled(c, s, id, h) && CiphersOk(c, s.procs, s.cryptos, s.uplink)
    ensures var n := HandshakeNext(c, s, id, h); CiphersOk(c, n.procs, n.cryptos, n.uplink)
  {
    var p := HandshakeProc(s.procs[id], h);
    if h == StoreCipher {
      CiphersStored(c, s.procs, id, p, s.cryptos, s.uplink);
    } else {
      CiphersFrame(c, s.procs, id, p, s.cryptos, s.uplink);
    }
  }

  lemma CiphersAfterHook(c: Config, s: State, id: SessionId, k: HookStep)
    requires HookEnabled(c, s, id, k) && CiphersOk(c, s.procs, s.cryptos, s.uplink)
    ensures var n := HookNext(c, s, id, k); CiphersOk(c, n.procs, n.cryptos, n.uplink)
  {
    var p := HookProc(s.procs[id], k);
    if k == DropClientCipher {
      CiphersDropped(c, s.procs, id, p, s.cryptos, s.uplink);
    } else {
      CiphersFrame(c, s.procs, id, p, s.cryptos, s.uplink);
    }
  }

  lemma CiphersAfterTraffic(c: Config, s: State, t: TrafficStep)
    requires TrafficEnabled(c, s, t) && ProcsOk(c, s.procs) && CiphersOk(c, s.procs, s.cryptos, s.uplink)
    requires PacketsOk(c, s.procs, s.received, s.injected)
    ensures var n := TrafficNext(c, s, t); CiphersOk(c, n.procs, n.cryptos, n.uplink)
  {
    if t.FinishRead? {
      var r := s.received[t.n];
      assert ReadOk(s.procs, r);
      assert ProcOk(c, r.sess.id, s.procs[r.sess.id]);
    }
  }

  // Packets.

  /** A registered session's record never changes again, and the session stays registered. */
  predicate KeepsRegistered(procs: Procs, id: SessionId, p: Proc) {
    id in procs && ANNOUNCING <= procs[id].stage ==> ANNOUNCING <= p.stage && p.sess == procs[id].sess
  }

  lemma PacketsFrame(
    c: Config, procs: Procs, id: SessionId, p: Proc, received: map<nat, Read>, injected: seq<Injection>)
    requires PacketsOk(c, procs, received, injected) && KeepsRegistered(procs, id, p)
    ensures PacketsOk(c, procs[id := p], received, injected)
  {
  }

  lemma LogExtended(c: Config, procs: Procs, log: seq<Injection>, path: Path, sess: Session, key: Key, ct: Cipher)
    requires forall i :: 0 <= i < |log| ==> InjectionOk(c, procs, log[i])
    requires Registered(procs, sess) && (path != ControlPath ==> key == SessionKey(c.token, sess.ip))
    ensures forall i :: 0 <= i < |Injected(log, path, sess, key, ct)| ==>
              InjectionOk(c, procs, Injected(log, path, sess, key, ct)[i])
  {
  }

  lemma LogAfterReadOk(c: Config, s: State, r: Read)
    requires ProcsOk(c, s.procs) && CiphersOk(c, s.procs, s.cryptos, s.uplink)
    requires PacketsOk(c, s.procs, s.received, s.injected) && ReadOk(s.procs, r)
    ensures PacketsOk(c, s.procs, s.received, LogAfterRead(s, r))
  {
    var sess := r.sess;
    assert ProcOk(c, sess.id, s.procs[sess.id]);
    match r
    case ControlRead(_, from, ct) =>
      if from in s.cryptos {
        LogExtended(c, s.procs, s.injected, ControlPath, sess, s.cryptos[from].key, ct);
      }
    case RelayRead(_, ct) =>
      LogExtended(c, s.procs, s.injected, RelayPath, sess, SessionKey(c.token, sess.ip), ct);
  }

  lemma DataPacketOk(
    c: Config, procs: Procs, received: map<nat, Read>, injected: seq<Injection>, id: SessionId, ct: Cipher)
    requires PacketsOk(c, procs, received, injected) && ProcsOk(c, procs)
    requires id in procs && ANNOUNCING <= procs[id].stage
    ensures PacketsOk(c, procs, received, Injected(injected, DataPath, procs[id].sess, procs[id].sess.key, ct))
  {
    assert ProcOk(c, id, procs[id]);
    LogExtended(c, procs, injected, DataPath, procs[id].sess, procs[id].sess.key, ct);
  }

  lemma ReceivedExtended(
    c: Config, procs: Procs, received: map<nat, Read>, injected: seq<Injection>, n: nat, r: Read)
    requires PacketsOk(c, procs, received, injected) && ReadOk(procs, r)
    ensures PacketsOk(c, procs, received[n := r], injected)
  {
  }

  lemma PacketsAfterTraffic(c: Config, s: State, t: TrafficStep)
    requires TrafficEnabled(c, s, t) && ProcsOk(c, s.procs) && TableOk(s.procs, s.table)
    requires CiphersOk(c, s.procs, s.cryptos, s.uplink) && PacketsOk(c, s.procs, s.received, s.injected)
    ensures var n := TrafficNext(c, s, t); PacketsOk(c, s.procs, n.received, n.injected)
  {
    match t
    case ControlPacket(n, from, ct) =>
      ReceivedExtended(c, s.procs, s.received, s.injected, n, ControlRead(s.table.byClient[from], from, ct));
    case RelayPacket(n, ip, ct) =>
      ReceivedExtended(c, s.procs, s.received, s.injected, n, RelayRead(s.table.byTunIP[ip], ct));
    case FinishRead(n) =>
      LogAfterReadOk(c, s, s.received[n]);
    case DataPacket(id, ct) => DataPacketOk(c, s.procs, s.received, s.injected, id, ct);
    case _ =>
  }

  // Pins.

  lemma PinsAfterHandshake(c: Config, s: State, id: SessionId, h: HandshakeStep)
    requires HandshakeEnabled(c, s, id, h) && ProcsOk(c, s.procs) && PinsOk(c, s.procs, s.pins)
    ensures PinsOk(c, HandshakeNext(c, s, id, h).procs, HandshakeNext(c, s, id, h).pins)
  {
  }

  lemma PinsAfterHook(c: Config, s: State, id: SessionId, k: HookStep)
    requires HookEnabled(c, s, id, k) && PinsOk(c, s.procs, s.pins)
    ensures PinsOk(c, HookNext(c, s, id, k).procs, HookNext(c, s, id, k).pins)
  {
  }

  lemma PinsAfterTraffic(c: Config, s: State, t: TrafficStep)
    requires TrafficEnabled(c, s, t) && PinsOk(c, s.procs, s.pins)
    ensures PinsOk(c, s.procs, TrafficNext(c, s, t).pins)
  {
  }

  // Slaves.

  lemma {:induction false} DrainedAppend(m: map<IPv4, SessionId>, queue: seq<ControlMsg>, msg: ControlMsg)
    ensures Drained(m, queue + [msg]) == OwnersAfter(Drained(m, queue), msg)
    decreases |queue|
  {
    if queue == [] {
      assert queue + [msg] == [msg];
      assert [msg][1..] == [];
    } else {
      assert (queue + [msg])[1..] == queue[1..] + [msg];
      DrainedAppend(OwnersAfter(m, queue[0]), queue[1..], msg);
    }
  }

  lemma OwnersHandled(m: Entries, token: seq<byte>, msg: ControlMsg)
    ensures Owners(Handled(m, token, msg)) == OwnersAfter(Owners(m), msg)
  {
  }

  /** Same announcement, and no change in what slave `q` was told or must show. */
  predicate SameForSlave(procs: Procs, id: SessionId, p: Proc, q: SlaveId) {
    && id in procs
    && AnnouncementOf(p.sess) == AnnouncementOf(procs[id].sess)
    && (q in p.announced <==> q in procs[id].announced)
    && (q in p.ended <==> q in procs[id].ended)
    && (p.InTable() && q in p.announced ==> procs[id].InTable())
  }

  lemma SlaveFrame(c: Config, procs: Procs, id: SessionId, p: Proc, q: SlaveId, sl: Slave)
    requires SlaveOk(c, procs, q, sl)
    requires SameForSlave(procs, id, p, q) || (id !in procs && q !in p.announced)
    ensures SlaveOk(c, procs[id := p], q, sl)
  {
    var procs' := procs[id := p];
    assert forall info :: Announced(procs, q, info) ==> Announced(procs', q, info);
  }

  lemma ViewAnnounced(procs: Procs, id: SessionId, q: SlaveId, view: map<IPv4, SessionId>)
    requires ViewOk(procs, q, view) && IpsExclusive(procs)
    requires id in procs && procs[id].stage == ANNOUNCING && q !in procs[id].ended
    ensures var p := procs[id].(announced := procs[id].announced + {q});
            ViewOk(procs[id := p], q, view[p.sess.ip := id])
  {
    assert Holds(procs, id, procs[id].sess.ip);
    forall j | j in procs && procs[j].InTable() && j != id ensures procs[j].sess.ip != procs[id].sess.ip {
      assert Holds(procs, j, procs[j].sess.ip);
    }
  }

  lemma SlaveAnnounced(c: Config, procs: Procs, id: SessionId, q: SlaveId, sl: Slave)
    requires IpsExclusive(procs) && SlaveOk(c, procs, q, sl)
    requires id in procs && ProcOk(c, id, procs[id]) && procs[id].stage == ANNOUNCING
    ensures var p := procs[id].(announced := procs[id].announced + {q});
            SlaveOk(c, procs[id := p], q, sl.(queue := sl.queue + [NewSession(AnnouncementOf(p.sess))]))
  {
    var p := procs[id].(announced := procs[id].announced + {q});
    var procs', msg := procs[id := p], NewSession(AnnouncementOf(p.sess));
    assert forall info :: Announced(procs, q, info) ==> Announced(procs', q, info);
    DrainedAppend(Owners(sl.sessions), sl.queue, msg);
    ViewAnnounced(procs, id, q, Drained(Owners(sl.sessions), sl.queue));
  }

  /** The end of a session leaves every other session's entry where it is. */
  lemma SlaveEnded(c: Config, procs: Procs, id: SessionId, q: SlaveId, sl: Slave)
    requires SlaveOk(c, procs, q, sl) && id in procs && !procs[id].InTable()
    ensures var p := procs[id].(ended := procs[id].ended + {q});
            SlaveOk(c, procs[id := p], q, sl.(queue := sl.queue + [SessionEnd(id)]))
  {
    var p := procs[id].(ended := procs[id].ended + {q});
    var procs' := procs[id := p];
    assert forall info :: Announced(procs, q, info) ==> Announced(procs', q, info);
    DrainedAppend(Owners(sl.sessions), sl.queue, SessionEnd(id));
  }

  lemma SlaveDelivered(c: Config, procs: Procs, q: SlaveId, sl: Slave)
    requires SlaveOk(c, procs, q, sl) && sl.queue != []
    ensures SlaveOk(c, procs, q, Slave(Handled(sl.sessions, c.token, sl.queue[0]), sl.queue[1..]))
  {
    OwnersHandled(sl.sessions, c.token, sl.queue[0]);
  }

  lemma SlavePunched(c: Config, procs: Procs, q: SlaveId, sl: Slave, ip: IPv4, src: Addr)
    requires SlaveOk(c, procs, q, sl)
    ensures SlaveOk(c, procs, q, sl.(sessions := WithPunch(sl.sessions, ip, src)))
  {
    assert Owners(WithPunch(sl.sessions, ip, src)) == Owners(sl.sessions);
  }

  lemma SlavesFrame(c: Config, procs: Procs, id: SessionId, p: Proc, slaves: map<SlaveId, Slave>)
    requires SlavesOk(c, procs, slaves) && forall q :: q in slaves ==> SameForSlave(procs, id, p, q)
    ensures SlavesOk(c, procs[id := p], slaves)
  {
    forall q | q in slaves ensures SlaveOk(c, procs[id := p], q, slaves[q]) {
      SlaveFrame(c, procs, id, p, q, slaves[q]);
    }
  }

  lemma SlavesAnnounced(c: Config, procs: Procs, id: SessionId, q: SlaveId, slaves: map<SlaveId, Slave>)
    requires SlavesOk(c, procs, slaves) && q in slaves && IpsExclusive(procs)
    requires id in procs && ProcOk(c, id, procs[id]) && procs[id].stage == ANNOUNCING
    ensures var p := procs[id].(announced := procs[id].announced + {q});
            SlavesOk(c, procs[id := p], Sent(slaves, q, NewSession(AnnouncementOf(procs[id].sess))))
  {
    var p := procs[id].(announced := procs[id].announced + {q});
    forall r | r in slaves && r != q ensures SlaveOk(c, procs[id := p], r, slaves[r]) {
      SlaveFrame(c, procs, id, p, r, slaves[r]);
    }
    SlaveAnnounced(c, procs, id, q, slaves[q]);
  }

  lemma SlavesEnded(c: Config, procs: Procs, id: SessionId, q: SlaveId, slaves: map<SlaveId, Slave>)
    requires SlavesOk(c, procs, slaves) && q in slaves && id in procs && !procs[id].InTable()
    ensures var p := procs[id].(ended := procs[id].ended + {q});
            SlavesOk(c, procs[id := p], Sent(slaves, q, SessionEnd(id)))
  {
    var p := procs[id].(ended := procs[id].ended + {q});
    forall r | r in slaves && r != q ensures SlaveOk(c, procs[id := p], r, slaves[r]) {
      SlaveFrame(c, procs, id, p, r, slaves[r]);
    }
    SlaveEnded(c, procs, id, q, slaves[q]);
  }

  lemma SameAfterHandshake(c: Config, s: State, id: SessionId, h: HandshakeStep, q: SlaveId)
    requires HandshakeEnabled(c, s, id, h) && ProcOk(c, id, s.procs[id]) && !h.Announce?
    ensures SameForSlave(s.procs, id, HandshakeProc(s.procs[id], h), q)
  {
  }

  lemma SlavesAfterHandshake(c: Config, s: State, id: SessionId, h: HandshakeStep)
    requires HandshakeEnabled(c, s, id, h) && ProcsOk(c, s.procs) && IpsExclusive(s.procs)
    requires SlavesOk(c, s.procs, s.slaves)
    ensures var n := HandshakeNext(c, s, id, h); SlavesOk(c, n.procs, n.slaves)
  {
    assert ProcOk(c, id, s.procs[id]);
    if h.Announce? {
      SlavesAnnounced(c, s.procs, id, h.q, s.slaves);
    } else {
      forall q ensures SameForSlave(s.procs, id, HandshakeProc(s.procs[id], h), q) {
        SameAfterHandshake(c, s, id, h, q);
      }
      SlavesFrame(c, s.procs, id, HandshakeProc(s.procs[id], h), s.slaves);
    }
  }

  lemma SlavesAfterHook(c: Config, s: State, id: SessionId, k: HookStep)
    requires HookEnabled(c, s, id, k) && SlavesOk(c, s.procs, s.slaves)
    ensures var n := HookNext(c, s, id, k); SlavesOk(c, n.procs, n.slaves)
  {
    if k.SendEnd? {
      SlavesEnded(c, s.procs, id, k.q, s.slaves);
    } else {
      SlavesFrame(c, s.procs, id, HookProc(s.procs[id], k), s.slaves);
    }
  }

  lemma SlavesAfterTraffic(c: Config, s: State, t: TrafficStep)
    requires TrafficEnabled(c, s, t) && SlavesOk(c, s.procs, s.slaves)
    ensures SlavesOk(c, s.procs, TrafficNext(c, s, t).slaves)
  {
    match t
    case Deliver(q) => SlaveDelivered(c, s.procs, q, s.slaves[q]);
    case Punch(q, ip, src) => SlavePunched(c, s.procs, q, s.slaves[q], ip, src);
    case _ =>
  }

  lemma SlavesAfterBegin(c: Config, procs: Procs, id: SessionId, p: Proc, slaves: map<SlaveId, Slave>)
    requires SlavesOk(c, procs, slaves) && id !in procs && p.announced == {}
    ensures SlavesOk(c, procs[id := p], slaves)
  {
    forall q | q in slaves ensures SlaveOk(c, procs[id := p], q, slaves[q]) {
      SlaveFrame(c, procs, id, p, q, slaves[q]);
    }
  }

  // ----- one step, all structures -----

  lemma RestAfterBegin(
    c: Config, procs: Procs, id: SessionId, p: Proc, cryptos: map<Addr, ClientCipher>, uplink: map<IPv4, Key>,
    pins: map<SessionId, SlaveId>)
    requires ProcsOk(c, procs) && CiphersOk(c, procs, cryptos, uplink) && PinsOk(c, procs, pins)
    requires id !in procs && ProcOk(c, id, p) && !p.InTable()
    ensures ProcsOk(c, procs[id := p]) && CiphersOk(c, procs[id := p], cryptos, uplink)
    ensures PinsOk(c, procs[id := p], pins)
  {
  }

  lemma BeginKeeps(c: Config, s: State, id: SessionId, client: Addr, v3: bool, pick: SlaveId)
    requires BeginEnabled(c, s, id, pick) && Inv(c, s)
    ensures Inv(c, Begun(c, s, id, client, v3, pick))
  {
    var p := Begun(c, s, id, client, v3, pick).procs[id];
    RestAfterBegin(c, s.procs, id, p, s.cryptos, s.uplink, s.pins);
    PoolAllocated(c, s.procs, id, p, s.pool);
    TableFrame(s.procs, id, p, s.table);
    PortsFrame(s.procs, id, p, s.sockets, s.firewall);
    PacketsFrame(c, s.procs, id, p, s.received, s.injected);
    SlavesAfterBegin(c, s.procs, id, p, s.slaves);
  }

  lemma HandshakeKeeps(c: Config, s: State, id: SessionId, h: HandshakeStep)
    requires HandshakeEnabled(c, s, id, h) && Inv(c, s)
    ensures Inv(c, HandshakeNext(c, s, id, h))
  {
    ProcsAfterHandshake(c, s, id, h);
    PoolAfterHandshake(c, s, id, h);
    TableAfterHandshake(c, s, id, h);
    PortsAfterHandshake(c, s, id, h);
    CiphersAfterHandshake(c, s, id, h);
    PacketsFrame(c, s.procs, id, HandshakeProc(s.procs[id], h), s.received, s.injected);
    PinsAfterHandshake(c, s, id, h);
    SlavesAfterHandshake(c, s, id, h);
  }

  lemma HookKeeps(c: Config, s: State, id: SessionId, k: HookStep)
    requires HookEnabled(c, s, id, k) && Inv(c, s)
    ensures Inv(c, HookNext(c, s, id, k))
  {
    ProcsAfterHook(c, s, id, k);
    PoolAfterHook(c, s, id, k);
    TableAfterHook(c, s, id, k);
    PortsAfterHook(c, s, id, k);
    CiphersAfterHook(c, s, id, k);
    PacketsFrame(c, s.procs, id, HookProc(s.procs[id], k), s.received, s.injected);
    PinsAfterHook(c, s, id, k);
    SlavesAfterHook(c, s, id, k);
  }

  lemma TrafficLeaves(c: Config, s: State, t: TrafficStep)
    requires TrafficEnabled(c, s, t)
    ensures var n := TrafficNext(c, s, t);
            n.procs == s.procs && n.pool == s.pool && n.table == s.table && n.sockets == s.sockets
            && n.firewall == s.firewall && n.cryptos == s.cryptos
  {
  }

  lemma TrafficKeeps(c: Config, s: State, t: TrafficStep)
    requires TrafficEnabled(c, s, t) && Inv(c, s)
    ensures Inv(c, TrafficNext(c, s, t))
  {
    TrafficLeaves(c, s, t);
    CiphersAfterTraffic(c, s, t);
    PacketsAfterTraffic(c, s, t);
    PinsAfterTraffic(c, s, t);
    SlavesAfterTraffic(c, s, t);
  }

  lemma StepKeeps(c: Config, s: State, a: Action)
    requires Enabled(c, s, a) && Inv(c, s)
    ensures Inv(c, Next(c, s, a))
  {
    match a
    case Begin(id, client, v3, pick) => BeginKeeps(c, s, id, client, v3, pick);
    case Handshake(id, h) => HandshakeKeeps(c, s, id, h);
    case Hook(id, k) => HookKeeps(c, s, id, k);
    case Traffic(t) => TrafficKeeps(c, s, t);
  }

  lemma {:induction false} RunKeeps(c: Config, ss: seq<State>, acts: seq<Action>, i: nat)
    requires Run(c, ss, acts) && i < |ss|
    ensures Inv(c, ss[i])
  {
    if i == 0 {
      InitInv(c);
    } else {
      RunKeeps(c, ss, acts, i - 1);
      StepKeeps(c, ss[i - 1], acts[i - 1]);
    }
  }
}
