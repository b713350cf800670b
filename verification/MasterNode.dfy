/**
 The master's handlers as they run when nothing interleaves (master/main.go:226-258,
 383-414, 549-698). LifecycleRuns shows that the corresponding steps of Lifecycle, taken
 without interruption, have the same effects.
 */
module MasterNode {
  import opened Wrappers
  import opened Bytes
  import opened Crypto
  import opened SessionTable
  import opened SlaveNode
  import opened Lifecycle
  import Replay

  datatype Outcome =
    | Silent        // not a hello to answer, or a replay
    | NoSlave
    | Exhausted     // no address left
    | NoIdentifier  // the random source failed; the address went back
    | Welcomed(sess: Session, slave: SlaveId)

  class Master {
    const token: seq<byte>
    const sessions: Table
    const ipPool: IPPool
    const replays: Replay.ReplayCache
    var cryptos: map<Addr, ClientCipher>
    var uplink: map<IPv4, Key>
    var firewall: set<uint16>
    var sockets: set<uint16>
    var pins: map<SessionId, SlaveId>
    var queues: Queues

    ghost function View(): Tables
      reads this, sessions, ipPool
    {
      Tables(sessions.View(), ipPool.View(), cryptos, uplink, firewall, sockets, pins, queues)
    }

    constructor (token: seq<byte>, addresses: seq<IPv4>, slaves: set<SlaveId>)
      ensures ipPool.Valid() && ipPool.View() == PoolState(addresses, [], [])
      ensures sessions.View() == EMPTY_INDICES && replays.seen == map[]
      ensures cryptos == map[] && uplink == map[] && firewall == {} && sockets == {} && pins == map[]
      ensures queues == map q | q in slaves :: []
    {
      this.token := token;
      sessions := new Table();
      ipPool := new IPPool(addresses);
      replays := new Replay.ReplayCache();
      cryptos, uplink, firewall, sockets, pins := map[], map[], {}, {}, map[];
      queues := map q | q in slaves :: [];
    }

    method Broadcast(targets: set<SlaveId>, msg: ControlMsg)
      requires targets <= queues.Keys
      modifies this`queues
      ensures queues == Told(old(queues), targets, msg)
    {
      var rest := targets;
      while rest != {}
        invariant rest <= targets && queues == Told(old(queues), targets - rest, msg)
      {
        var q :| q in rest;
        queues := queues[q := queues[q] + [msg]];
        rest := rest - {q};
      }
      assert targets - rest == targets;
    }

    /** The removal hook, in its order: address, firewall, socket, ciphers, slaves. */
    method OnRemove(s: Session)
      requires ipPool.Valid()
      modifies this, ipPool
      ensures ipPool.Valid() && View() == Hooked(old(View()), s)
    {
      ipPool.Release(s.ip);
      if s.dataPort.Some? {
        firewall := firewall - {s.dataPort.value};
        sockets := sockets - {s.dataPort.value};
      }
      uplink := uplink - {s.ip};
      cryptos := cryptos - {s.client};
      Broadcast(queues.Keys, SessionEnd(s.id));
    }

    /** `Remove` together with its hook. */
    method Reap(id: SessionId)
      requires ipPool.Valid()
      modifies this, sessions, ipPool
      ensures ipPool.Valid() && View() == Reaped(old(View()), id)
    {
      var hook := sessions.Remove(id);
      if hook.Some? {
        OnRemove(hook.value);
      }
    }

    /**
     The checks on a hello: the clock window and the MAC, then the replay cache,
     which is not consulted unless they pass.
     */
    method CheckHello(h: Replay.Hello) returns (ok: bool)
      modifies replays
      ensures ok == (Replay.Reaches(h) && Replay.Fresh(old(replays.seen), h.nonce, h.now))
      ensures replays.seen ==
                if Replay.Reaches(h) then Replay.Checked(old(replays.seen), h.nonce, h.now) else old(replays.seen)
    {
      if !Replay.Reaches(h) {
        return false;
      }
      ok := replays.CheckAndAdd(h.nonce, h.now);
    }

    /** The part of a handshake behind the draw of an address and an identifier. */
    method Establish(s: Session, v3: bool, pick: SlaveId)
      requires pick in queues
      modifies this, sessions
      ensures sessions.View() == Added(old(sessions.View()), s)
      ensures cryptos == old(cryptos)[s.client := ClientCipher(s.key, s.id)] && uplink == old(uplink)
      ensures firewall == old(firewall) + PortSet(s.dataPort) && sockets == old(sockets) + PortSet(s.dataPort)
      ensures pins == old(pins)[s.id := pick]
      ensures queues == Told(old(queues), if v3 then old(queues).Keys else {pick}, NewSession(AnnouncementOf(s)))
    {
      cryptos := cryptos[s.client := ClientCipher(s.key, s.id)];
      if s.dataPort.Some? {
        sockets := sockets + {s.dataPort.value};
        firewall := firewall + {s.dataPort.value};
      }
      sessions.Add(s);
      pins := pins[s.id := pick];
      Broadcast(if v3 then queues.Keys else {pick}, NewSession(AnnouncementOf(s)));
    }

    /**
     An address and an identifier for a new session. Without an identifier the
     address goes back, to the end of the queue.
     */
    method Draw(client: Addr, id: Option<SessionId>, port: Option<uint16>) returns (o: Result<Session, Outcome>)
      requires ipPool.Valid()
      modifies ipPool
      ensures ipPool.Valid()
      ensures old(ipPool.available) == [] ==> o == Err(Exhausted) && ipPool.View() == old(ipPool.View())
      ensures old(ipPool.available) != [] && id == None ==>
                o == Err(NoIdentifier)
                && ipPool.View() == Released(Allocated(old(ipPool.View())), old(ipPool.available)[0])
      ensures old(ipPool.available) != [] && id != None ==>
                var ip := old(ipPool.available)[0];
                o == Ok(Session(id.value, client, ip, SessionKey(token, ip), port))
                && ipPool.View() == Allocated(old(ipPool.View()))
    {
      var ip := ipPool.Allocate();
      if ip.None? {
        return Err(Exhausted);
      }
      if id.None? {
        ipPool.Release(ip.value);
        return Err(NoIdentifier);
      }
      return Ok(Session(id.value, client, ip.value, SessionKey(token, ip.value), port));
    }

    /**
     A handshake. What comes from outside is a parameter: the registry's pick, the
     random identifier, the port of a fresh data socket. Only a welcomed client
     leaves a trace in the tables; a failed draw at most turns the pool's queue.
     */
    method HandleHandshake(
      h: Replay.Hello, client: Addr, v3: bool, pick: Option<SlaveId>, id: Option<SessionId>, port: Option<uint16>)
      returns (o: Outcome)
      requires ipPool.Valid() && (pick.Some? ==> pick.value in queues)
      modifies this, sessions, ipPool, replays
      ensures ipPool.Valid()
      ensures replays.seen ==
                if Replay.Reaches(h) then Replay.Checked(old(replays.seen), h.nonce, h.now) else old(replays.seen)
      ensures o == Silent <==> !(Replay.Reaches(h) && Replay.Fresh(old(replays.seen), h.nonce, h.now))
      ensures !o.Welcomed? ==>
                View() == old(View()).(pool := ipPool.View())
      ensures o.Silent? || o.NoSlave? || o.Exhausted? ==> ipPool.View() == old(ipPool.View())
      ensures !o.Silent? ==> (o == NoSlave <==> pick == None)
      ensures o.Exhausted? ==> old(ipPool.available) == []
      ensures o.NoIdentifier? ==>
                && old(ipPool.available) != [] && id == None
                && ipPool.View() == Released(Allocated(old(ipPool.View())), old(ipPool.available)[0])
      ensures o.Welcomed? ==>
                && old(ipPool.available) != [] && pick == Some(o.slave) && id == Some(o.sess.id)
                && o.sess.ip == old(ipPool.available)[0] && o.sess.key == SessionKey(token, o.sess.ip)
                && o.sess.client == client && o.sess.dataPort == port
                && View() == Joined(old(View()), o.sess, o.slave, if v3 then old(queues).Keys else {o.slave})
    {
      var ok := CheckHello(h);
      if !ok {
        return Silent;
      }
      if pick.None? {
        return NoSlave;
      }
      var drawn := Draw(client, id, port);
      if drawn.Err? {
        return drawn.error;
      }
      Establish(drawn.value, v3, pick.value);
      return Welcomed(drawn.value, pick.value);
    }

    /** A packet relayed by a slave: the cached cipher or a fresh one, then the source check. */
    method HandleUplink(ip: IPv4, c: Cipher) returns (pkt: Option<seq<byte>>)
      requires forall a :: a in uplink ==> uplink[a] == SessionKey(token, a)
      requires ip in sessions.byTunIP ==> sessions.byTunIP[ip].key == SessionKey(token, ip)
      modifies this`uplink
      ensures forall a :: a in uplink ==> uplink[a] == SessionKey(token, a)
      ensures uplink.Keys == old(uplink).Keys + (if ip in sessions.byTunIP then {ip} else {})
      ensures pkt.Some? <==>
                && ip in sessions.byTunIP
                && Open(SessionKey(token, ip), c).Some? && SrcMatchesTunnel(Open(SessionKey(token, ip), c).value, ip)
      ensures pkt.Some? ==> pkt == Open(SessionKey(token, ip), c)
    {
      if ip !in sessions.byTunIP {
        return None;
      }
      if ip !in uplink {
        uplink := uplink[ip := sessions.byTunIP[ip].key];
      }
      pkt := Open(uplink[ip], c);
      if pkt.Some? && !SrcMatchesTunnel(pkt.value, ip) {
        return None;
      }
    }
  }
}
