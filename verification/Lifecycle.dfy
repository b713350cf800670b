/**
 The master, its slaves and the control streams between them as a step system.

 A handshake (master/main.go:549-698), the removal of a session
 (master/session/session.go:89-104) and its hook (master/main.go:226-258) are cut
 into the steps between which other goroutines can run. A `Proc` is one session's
 passage through them; the maps beside it are the ones the program keeps.
 */
module Lifecycle {
  import opened Wrappers
  import opened Bytes
  import opened Crypto
  import opened SessionTable
  import opened SlaveNode

  type SlaveId = nat

  /** Fixed for a run: the shared token, the pool's first contents and the connected slaves. */
  datatype Config = Config(token: seq<byte>, addresses: seq<IPv4>, slaveIds: set<SlaveId>)

  ghost predicate NoDuplicates<T(!new)>(s: seq<T>) {
    forall i, j :: 0 <= i < j < |s| ==> s[i] != s[j]
  }

  /** How far a session has come: the number of the step it takes next. */
  type Stage = x: int | 0 <= x <= 12

  // The handshake.
  const DRAWN: Stage := 0       // address allocated
  const KEYED: Stage := 1       // cipher stored under the client address
  const BOUND: Stage := 2       // data socket opened, or opening failed
  const OPENED: Stage := 3      // data port in the firewall set
  const ANNOUNCING: Stage := 4  // in the table; telling slaves
  // Established.
  const LIVE: Stage := 5
  // The removal hook.
  const RELEASING: Stage := 6   // out of the table; address not yet released
  const CLOSING: Stage := 7     // data port not yet out of the firewall set
  const UNBINDING: Stage := 8   // data socket not yet closed
  const UNCACHING: Stage := 9   // relay cipher not yet dropped
  const UNKEYING: Stage := 10   // client cipher not yet dropped
  const ENDING: Stage := 11     // telling slaves
  const GONE: Stage := 12

  /** `announced` and `ended` are the slaves to which the respective message was sent. */
  datatype Proc = Proc(
    sess: Session, v3: bool, pick: SlaveId, stage: Stage, announced: set<SlaveId>, ended: set<SlaveId>)
  {
    predicate InFlight() { stage <= OPENED }
    predicate HoldsIp() { stage <= RELEASING }
    predicate InTable() { ANNOUNCING <= stage <= LIVE }
    predicate HookPending() { RELEASING <= stage <= ENDING }
    predicate HoldsCipher() { KEYED <= stage <= UNKEYING }
    predicate HoldsSocket() { sess.dataPort.Some? && BOUND <= stage <= UNBINDING }
    predicate HoldsPort() { sess.dataPort.Some? && OPENED <= stage <= CLOSING }
  }

  function Targets(c: Config, p: Proc): set<SlaveId> {
    if p.v3 then c.slaveIds else {p.pick}
  }

  /** The cipher stored for a client address; `owner` is the session it was made for. */
  datatype ClientCipher = ClientCipher(key: Key, owner: SessionId)

  /** A packet between its session look-up and its cipher look-up. */
  datatype Read =
    | ControlRead(sess: Session, from: Addr, c: Cipher)
    | RelayRead(sess: Session, c: Cipher)

  datatype Path = ControlPath | DataPath | RelayPath

  /** A packet handed to the network stack, with the session looked up for it and the key that opened it. */
  datatype Injection = Injection(path: Path, sess: Session, key: Key, pkt: seq<byte>)

  datatype Slave = Slave(sessions: Entries, queue: seq<ControlMsg>)

  datatype State = State(
    procs: map<SessionId, Proc>,
    pool: PoolState,
    table: Indices,
    cryptos: map<Addr, ClientCipher>,
    uplink: map<IPv4, Key>,
    sockets: set<uint16>,
    firewall: set<uint16>,
    pins: map<SessionId, SlaveId>,
    slaves: map<SlaveId, Slave>,
    received: map<nat, Read>,
    injected: seq<Injection>)

  function Init(c: Config): State {
    State(map[], PoolState(c.addresses, [], []), EMPTY_INDICES, map[], map[], {}, {}, map[],
          map q | q in c.slaveIds :: Slave(map[], []), map[], [])
  }

  /** The steps of a handshake after its address is drawn. */
  datatype HandshakeStep =
    | Abort
    | StoreCipher
    | Listen(port: Option<uint16>)
    | OpenPort
    | Register
    | Announce(q: SlaveId)
    | Finish

  /** The removal of a session and the steps of its hook. */
  datatype HookStep =
    | Remove
    | ReleaseIp
    | ClosePort
    | CloseSocket
    | DropRelayCipher
    | DropClientCipher
    | SendEnd(q: SlaveId)
    | EndHook

  /** Everything that leaves the stages alone. */
  datatype TrafficStep =
    | Choose(ip: IPv4, q: SlaveId)
    | Deliver(q: SlaveId)
    | Punch(q: SlaveId, ip: IPv4, src: Addr)
    | ControlPacket(n: nat, from: Addr, c: Cipher)
    | RelayPacket(n: nat, ip: IPv4, c: Cipher)
    | FinishRead(n: nat)
    | DataPacket(id: SessionId, c: Cipher)

  datatype Action =
    | Begin(id: SessionId, client: Addr, v3: bool, pick: SlaveId)
    | Handshake(id: SessionId, h: HandshakeStep)
    | Hook(id: SessionId, k: HookStep)
    | Traffic(t: TrafficStep)

  /** `Listen` never gets a port whose socket is open. */
  predicate HandshakeEnabled(c: Config, s: State, id: SessionId, h: HandshakeStep) {
    id in s.procs &&
    var p := s.procs[id];
    match h
    case Abort => p.stage == DRAWN
    case StoreCipher => p.stage == DRAWN
    case Listen(port) => p.stage == KEYED && (port.Some? ==> port.value !in s.sockets)
    case OpenPort => p.stage == BOUND
    case Register => p.stage == OPENED
    case Announce(q) => p.stage == ANNOUNCING && q in Targets(c, p) && q !in p.announced && q in s.slaves
    case Finish => p.stage == ANNOUNCING && p.announced == Targets(c, p)
  }

  /**
   `Remove` needs a finished handshake, which the three-minute timeout
   (master/session/session.go:11) guarantees.
   */
  predicate HookEnabled(c: Config, s: State, id: SessionId, k: HookStep) {
    id in s.procs &&
    var p := s.procs[id];
    match k
    case Remove => p.stage == LIVE
    case ReleaseIp => p.stage == RELEASING
    case ClosePort => p.stage == CLOSING
    case CloseSocket => p.stage == UNBINDING
    case DropRelayCipher => p.stage == UNCACHING
    case DropClientCipher => p.stage == UNKEYING
    case SendEnd(q) => p.stage == ENDING && q in c.slaveIds && q !in p.ended && q in s.slaves
    case EndHook => p.stage == ENDING && p.ended == c.slaveIds
  }

  predicate TrafficEnabled(c: Config, s: State, t: TrafficStep) {
    match t
    case Choose(ip, q) => ip in s.table.byTunIP && q in c.slaveIds
    case Deliver(q) => q in s.slaves && s.slaves[q].queue != []
    case Punch(q, _, _) => q in s.slaves
    case ControlPacket(n, from, _) => n !in s.received && from in s.table.byClient
    case RelayPacket(n, ip, _) => n !in s.received && ip in s.table.byTunIP
    case FinishRead(n) => n in s.received
    case DataPacket(id, _) => id in s.procs && s.procs[id].HoldsSocket() && ANNOUNCING <= s.procs[id].stage
  }

  predicate BeginEnabled(c: Config, s: State, id: SessionId, pick: SlaveId) {
    id !in s.procs && pick in c.slaveIds && s.pool.available != []
  }

  predicate Enabled(c: Config, s: State, a: Action) {
    match a
    case Begin(id, _, _, pick) => BeginEnabled(c, s, id, pick)
    case Handshake(id, h) => HandshakeEnabled(c, s, id, h)
    case Hook(id, k) => HookEnabled(c, s, id, k)
    case Traffic(t) => TrafficEnabled(c, s, t)
  }

  function PortSet(port: Option<uint16>): set<uint16> {
    if port.Some? then {port.value} else {}
  }

  function AnnouncementOf(s: Session): Announcement {
    Announcement(s.id, s.client, s.ip)
  }

  function Sent(slaves: map<SlaveId, Slave>, q: SlaveId, msg: ControlMsg): map<SlaveId, Slave>
    requires q in slaves
  {
    slaves[q := slaves[q].(queue := slaves[q].queue + [msg])]
  }

  // ----- what the sequential handlers see -----

  type Queues = map<SlaveId, seq<ControlMsg>>

  /** Every queue of `targets` has the message at its end; the others are as they were. */
  function Told(queues: Queues, targets: set<SlaveId>, msg: ControlMsg): Queues {
    map q | q in queues :: if q in targets then queues[q] + [msg] else queues[q]
  }

  /** The tables of the master and its streams to the slaves. */
  datatype Tables = Tables(
    table: Indices, pool: PoolState, cryptos: map<Addr, ClientCipher>, uplink: map<IPv4, Key>, firewall: set<uint16>,
    sockets: set<uint16>, pins: map<SessionId, SlaveId>, queues: Queues)

  function TablesOf(s: State): Tables {
    Tables(s.table, s.pool, s.cryptos, s.uplink, s.firewall, s.sockets, s.pins,
           map q | q in s.slaves :: s.slaves[q].queue)
  }

  /** The effect of a whole handshake that sets up `sess`. */
  function Joined(t: Tables, sess: Session, pick: SlaveId, targets: set<SlaveId>): Tables
    requires t.pool.available != []
  {
    Tables(Added(t.table, sess), Allocated(t.pool), t.cryptos[sess.client := ClientCipher(sess.key, sess.id)], t.uplink,
           t.firewall + PortSet(sess.dataPort), t.sockets + PortSet(sess.dataPort), t.pins[sess.id := pick],
           Told(t.queues, targets, NewSession(AnnouncementOf(sess))))
  }

  /** The effect of the removal hook for `sess`, taken out of the table before. */
  function Hooked(t: Tables, sess: Session): Tables {
    t.(pool := Released(t.pool, sess.ip), cryptos := t.cryptos - {sess.client}, uplink := t.uplink - {sess.ip},
       firewall := t.firewall - PortSet(sess.dataPort), sockets := t.sockets - PortSet(sess.dataPort),
       queues := Told(t.queues, t.queues.Keys, SessionEnd(sess.id)))
  }

  /** The effect of a removal together with its hook. */
  function Reaped(t: Tables, id: SessionId): Tables {
    if id !in t.table.byID then t else Hooked(t.(table := Removed(t.table, id)), t.table.byID[id])
  }

  /** The reverse-path filter on a decrypted client packet (master/main.go:368-378). */
  predicate SrcMatchesTunnel(pkt: seq<byte>, ip: IPv4) {
    |pkt| >= 20 && pkt[0] / 16 == 4 && pkt[12..16] == Put32(ip)
  }

  function Injected(log: seq<Injection>, path: Path, sess: Session, key: Key, c: Cipher): seq<Injection> {
    var pkt := Open(key, c);
    if pkt.Some? && SrcMatchesTunnel(pkt.value, sess.ip)
    then log + [Injection(path, sess, key, pkt.value)]
    else log
  }

  /** The cached cipher for a relayed packet, or a new one for its session. */
  function RelayKey(uplink: map<IPv4, Key>, sess: Session): Key {
    if sess.ip in uplink then uplink[sess.ip] else sess.key
  }

  /** The second half of `serve`'s data case and of `handleUplink`. */
  function LogAfterRead(s: State, r: Read): seq<Injection> {
    match r
    case ControlRead(sess, from, c) =>
      if from in s.cryptos then Injected(s.injected, ControlPath, sess, s.cryptos[from].key, c) else s.injected
    case RelayRead(sess, c) => Injected(s.injected, RelayPath, sess, RelayKey(s.uplink, sess), c)
  }

  function UplinkAfterRead(uplink: map<IPv4, Key>, r: Read): map<IPv4, Key> {
    if r.RelayRead? then uplink[r.sess.ip := RelayKey(uplink, r.sess)] else uplink
  }

  function Begun(c: Config, s: State, id: SessionId, client: Addr, v3: bool, pick: SlaveId): State
    requires BeginEnabled(c, s, id, pick)
  {
    var ip := s.pool.available[0];
    var sess := Session(id, client, ip, SessionKey(c.token, ip), None);
    s.(pool := Allocated(s.pool), procs := s.procs[id := Proc(sess, v3, pick, DRAWN, {}, {})])
  }

  /** What a handshake step does to the session's own record. */
  function HandshakeProc(p: Proc, h: HandshakeStep): Proc {
    match h
    case Abort => p.(stage := GONE)
    case StoreCipher => p.(stage := KEYED)
    case Listen(port) => p.(stage := BOUND, sess := p.sess.(dataPort := port))
    case OpenPort => p.(stage := OPENED)
    case Register => p.(stage := ANNOUNCING)
    case Announce(q) => p.(announced := p.announced + {q})
    case Finish => p.(stage := LIVE)
  }

  function HandshakeNext(c: Config, s: State, id: SessionId, h: HandshakeStep): State
    requires HandshakeEnabled(c, s, id, h)
  {
    var p := s.procs[id];
    var n := s.(procs := s.procs[id := HandshakeProc(p, h)]);
    match h
    case Abort => n.(pool := Released(s.pool, p.sess.ip))
    case StoreCipher => n.(cryptos := s.cryptos[p.sess.client := ClientCipher(p.sess.key, id)])
    case Listen(port) => n.(sockets := s.sockets + PortSet(port))
    case OpenPort => n.(firewall := s.firewall + PortSet(p.sess.dataPort))
    case Register => n.(table := Added(s.table, p.sess), pins := s.pins[id := p.pick])
    case Announce(q) => n.(slaves := Sent(s.slaves, q, NewSession(AnnouncementOf(p.sess))))
    case Finish => n
  }

  function HookProc(p: Proc, k: HookStep): Proc {
    match k
    case Remove => p.(stage := RELEASING)
    case ReleaseIp => p.(stage := CLOSING)
    case ClosePort => p.(stage := UNBINDING)
    case CloseSocket => p.(stage := UNCACHING)
    case DropRelayCipher => p.(stage := UNKEYING)
    case DropClientCipher => p.(stage := ENDING)
    case SendEnd(q) => p.(ended := p.ended + {q})
    case EndHook => p.(stage := GONE)
  }

  function HookNext(c: Config, s: State, id: SessionId, k: HookStep): State
    requires HookEnabled(c, s, id, k)
  {
    var p := s.procs[id];
    var n := s.(procs := s.procs[id := HookProc(p, k)]);
    match k
    case Remove => n.(table := Removed(s.table, id))
    case ReleaseIp => n.(pool := Released(s.pool, p.sess.ip))
    case ClosePort => n.(firewall := s.firewall - PortSet(p.sess.dataPort))
    case CloseSocket => n.(sockets := s.sockets - PortSet(p.sess.dataPort))
    case DropRelayCipher => n.(uplink := s.uplink - {p.sess.ip})
    case DropClientCipher => n.(cryptos := s.cryptos - {p.sess.client})
    case SendEnd(q) => n.(slaves := Sent(s.slaves, q, SessionEnd(id)))
    case EndHook => n
  }

  function TrafficNext(c: Config, s: State, t: TrafficStep): State
    requires TrafficEnabled(c, s, t)
  {
    match t
    case Choose(ip, q) => s.(pins := s.pins[s.table.byTunIP[ip].id := q])
    case Deliver(q) =>
      var sl := s.slaves[q];
      s.(slaves := s.slaves[q := Slave(Handled(sl.sessions, c.token, sl.queue[0]), sl.queue[1..])])
    case Punch(q, ip, src) =>
      var sl := s.slaves[q];
      s.(slaves := s.slaves[q := sl.(sessions := WithPunch(sl.sessions, ip, src))])
    case ControlPacket(n, from, ct) =>
      s.(received := s.received[n := ControlRead(s.table.byClient[from], from, ct)])
    case RelayPacket(n, ip, ct) =>
      s.(received := s.received[n := RelayRead(s.table.byTunIP[ip], ct)])
    case FinishRead(n) =>
      var r := s.received[n];
      s.(received := s.received - {n}, uplink := UplinkAfterRead(s.uplink, r), injected := LogAfterRead(s, r))
    case DataPacket(id, ct) =>
      var sess := s.procs[id].sess;
      s.(injected := Injected(s.injected, DataPath, sess, sess.key, ct))
  }

  function Next(c: Config, s: State, a: Action): State
    requires Enabled(c, s, a)
  {
    match a
    case Begin(id, client, v3, pick) => Begun(c, s, id, client, v3, pick)
    case Handshake(id, h) => HandshakeNext(c, s, id, h)
    case Hook(id, k) => HookNext(c, s, id, k)
    case Traffic(t) => TrafficNext(c, s, t)
  }

  /** A run: any number of enabled steps from the initial state, in any order. */
  ghost predicate Run(c: Config, ss: seq<State>, acts: seq<Action>) {
    && NoDuplicates(c.addresses)
    && |ss| == |acts| + 1
    && ss[0] == Init(c)
    && forall i :: 0 <= i < |acts| ==> Enabled(c, ss[i], acts[i]) && ss[i + 1] == Next(c, ss[i], acts[i])
  }
}
