/** What becomes of every client packet, on each of the three uplink paths. */
module LifecycleUplink {
  import opened Wrappers
  import opened Bytes
  import opened Crypto
  import opened SessionTable
  import opened SlaveNode
  import opened Lifecycle
  import opened LifecycleInvariants
  import opened LifecycleTheorems
  import opened LifecycleTraffic

  /** A ciphertext opens exactly to what was sealed under that key. */
  lemma OpensExactly(key: Key, ct: Cipher, pkt: seq<byte>)
    ensures Open(key, ct) == Some(pkt) <==> exists n :: ct == Seal(key, n, pkt)
  {
    if Open(key, ct) == Some(pkt) {
      assert ct == Seal(key, ct.nonce, pkt);
    }
  }

  /** An IPv4 packet, at least a header long, with this source address. */
  predicate ComesFrom(pkt: seq<byte>, ip: IPv4) {
    |pkt| >= 20 && pkt[0] / 16 == 4 && U32At(pkt, 12) == ip
  }

  /** One packet is handed on if the bytes open to one from the session's address, and otherwise none. */
  predicate HandsOn(
    log: seq<Injection>, log': seq<Injection>, path: Path, sess: Session, key: Key, ct: Cipher)
  {
    var pkt := Open(key, ct);
    if pkt.Some? && ComesFrom(pkt.value, sess.ip) then log' == log + [Injection(path, sess, key, pkt.value)]
    else log' == log
  }

  lemma FilterExact(pkt: seq<byte>, ip: IPv4)
    ensures SrcMatchesTunnel(pkt, ip) <==> ComesFrom(pkt, ip)
  {
    if |pkt| >= 20 {
      Put32OfU32At(pkt, 12);
      if Put32(ip) == pkt[12..16] {
        Put32Injective(U32At(pkt, 12), ip);
      }
    }
  }

  lemma InjectedExact(log: seq<Injection>, path: Path, sess: Session, key: Key, ct: Cipher)
    ensures HandsOn(log, Injected(log, path, sess, key, ct), path, sess, key, ct)
  {
    if Open(key, ct).Some? {
      FilterExact(Open(key, ct).value, sess.ip);
    }
  }

  // ----- the data path -----

  /** A packet on a session's own socket is opened with that session's key. */
  lemma DataPacketExact(c: Config, ss: seq<State>, acts: seq<Action>, i: nat, id: SessionId, ct: Cipher)
    requires Run(c, ss, acts) && i < |acts| && acts[i] == Traffic(DataPacket(id, ct))
    ensures id in ss[i].procs
    ensures var sess := ss[i].procs[id].sess;
            HandsOn(ss[i].injected, ss[i + 1].injected, DataPath, sess, SessionKey(c.token, sess.ip), ct)
  {
    RunKeeps(c, ss, acts, i);
    DataStepExact(c, ss[i], id, ct);
  }

  lemma DataStepExact(c: Config, s: State, id: SessionId, ct: Cipher)
    requires TrafficEnabled(c, s, DataPacket(id, ct)) && ProcsOk(c, s.procs)
    ensures var sess := s.procs[id].sess;
            HandsOn(s.injected, TrafficNext(c, s, DataPacket(id, ct)).injected, DataPath, sess,
                    SessionKey(c.token, sess.ip), ct)
  {
    assert ProcOk(c, id, s.procs[id]);
    InjectedExact(s.injected, DataPath, s.procs[id].sess, s.procs[id].sess.key, ct);
  }

  // ----- the control and relay paths -----

  /** A packet taken up as `n` stays as it is until its read is finished. */
  predicate KeepsRead(received: map<nat, Read>, received': map<nat, Read>, n: nat) {
    n in received ==> n in received' && received'[n] == received[n]
  }

  lemma ReadsAfterHandshake(c: Config, s: State, id: SessionId, h: HandshakeStep)
    requires HandshakeEnabled(c, s, id, h)
    ensures HandshakeNext(c, s, id, h).received == s.received
  {
  }

  lemma ReadsAfterHook(c: Config, s: State, id: SessionId, k: HookStep)
    requires HookEnabled(c, s, id, k)
    ensures HookNext(c, s, id, k).received == s.received
  {
  }

  lemma ReadAfterTraffic(c: Config, s: State, t: TrafficStep, n: nat)
    requires TrafficEnabled(c, s, t) && t != FinishRead(n)
    ensures KeepsRead(s.received, TrafficNext(c, s, t).received, n)
  {
  }

  lemma ReadStep(c: Config, s: State, a: Action, n: nat)
    requires Enabled(c, s, a) && a != Traffic(FinishRead(n))
    ensures KeepsRead(s.received, Next(c, s, a).received, n)
  {
    match a
    case Begin(_, _, _, _) =>
    case Handshake(id, h) => ReadsAfterHandshake(c, s, id, h);
    case Hook(id, k) => ReadsAfterHook(c, s, id, k);
    case Traffic(t) => ReadAfterTraffic(c, s, t, n);
  }

  lemma {:induction false} ReadStays(c: Config, ss: seq<State>, acts: seq<Action>, i: nat, j: nat, n: nat)
    requires Run(c, ss, acts) && i <= j < |ss|
    requires forall k :: i <= k < j ==> acts[k] != Traffic(FinishRead(n))
    ensures KeepsRead(ss[i].received, ss[j].received, n)
  {
    if i < j {
      ReadStays(c, ss, acts, i, j - 1, n);
      ReadStep(c, ss[j - 1], acts[j - 1], n);
    }
  }

  lemma TakenUp(c: Config, s: State, n: nat, from: Addr, ct: Cipher)
    requires TrafficEnabled(c, s, ControlPacket(n, from, ct))
    ensures from in s.table.byClient
    ensures var r := TrafficNext(c, s, ControlPacket(n, from, ct)).received;
            n in r && r[n] == ControlRead(s.table.byClient[from], from, ct)
  {
  }

  lemma TakenUpRelayed(c: Config, s: State, n: nat, ip: IPv4, ct: Cipher)
    requires TrafficEnabled(c, s, RelayPacket(n, ip, ct))
    ensures ip in s.table.byTunIP
    ensures var r := TrafficNext(c, s, RelayPacket(n, ip, ct)).received;
            n in r && r[n] == RelayRead(s.table.byTunIP[ip], ct)
  {
  }

  lemma ControlStepExact(c: Config, s: State, n: nat)
    requires n in s.received && s.received[n].ControlRead?
    ensures var r, log := s.received[n], TrafficNext(c, s, FinishRead(n)).injected;
            if r.from in s.cryptos
            then HandsOn(s.injected, log, ControlPath, r.sess, s.cryptos[r.from].key, r.c) else log == s.injected
  {
    var r := s.received[n];
    if r.from in s.cryptos {
      InjectedExact(s.injected, ControlPath, r.sess, s.cryptos[r.from].key, r.c);
    }
  }

  lemma RelayStepExact(c: Config, s: State, n: nat)
    requires n in s.received && s.received[n].RelayRead? && ReadOk(s.procs, s.received[n])
    requires ProcsOk(c, s.procs) && CiphersOk(c, s.procs, s.cryptos, s.uplink)
    ensures var r, after := s.received[n], TrafficNext(c, s, FinishRead(n));
            && HandsOn(s.injected, after.injected, RelayPath, r.sess, SessionKey(c.token, r.sess.ip), r.c)
            && after.uplink == s.uplink[r.sess.ip := SessionKey(c.token, r.sess.ip)]
  {
    var r := s.received[n];
    assert ProcOk(c, r.sess.id, s.procs[r.sess.id]);
    InjectedExact(s.injected, RelayPath, r.sess, RelayKey(s.uplink, r.sess), r.c);
  }

  /**
   A packet taken up from `from` at step `i`, its read finished at step `j`: it is for
   the session found at `i`, and opened with the cipher found at `j`, if there is one.
   */
  lemma ControlPacketExact(
    c: Config, ss: seq<State>, acts: seq<Action>, i: nat, j: nat, n: nat, from: Addr, ct: Cipher)
    requires Run(c, ss, acts) && i < j < |acts|
    requires acts[i] == Traffic(ControlPacket(n, from, ct)) && acts[j] == Traffic(FinishRead(n))
    requires forall k :: i < k < j ==> acts[k] != Traffic(FinishRead(n))
    ensures from in ss[i].table.byClient
    ensures var sess := ss[i].table.byClient[from];
            if from in ss[j].cryptos
            then HandsOn(ss[j].injected, ss[j + 1].injected, ControlPath, sess, ss[j].cryptos[from].key, ct)
            else ss[j + 1].injected == ss[j].injected
  {
    TakenUp(c, ss[i], n, from, ct);
    ReadStays(c, ss, acts, i + 1, j, n);
    ControlStepExact(c, ss[j], n);
  }

  /** A relayed packet is for the session found at step `i`, and opened with its key, whatever is cached. */
  lemma RelayPacketExact(
    c: Config, ss: seq<State>, acts: seq<Action>, i: nat, j: nat, n: nat, ip: IPv4, ct: Cipher)
    requires Run(c, ss, acts) && i < j < |acts|
    requires acts[i] == Traffic(RelayPacket(n, ip, ct)) && acts[j] == Traffic(FinishRead(n))
    requires forall k :: i < k < j ==> acts[k] != Traffic(FinishRead(n))
    ensures ip in ss[i].table.byTunIP && ss[i].table.byTunIP[ip].ip == ip
    ensures HandsOn(ss[j].injected, ss[j + 1].injected, RelayPath, ss[i].table.byTunIP[ip], SessionKey(c.token, ip), ct)
    ensures ss[j + 1].uplink == ss[j].uplink[ip := SessionKey(c.token, ip)]
  {
    TakenUpRelayed(c, ss[i], n, ip, ct);
    ReadStays(c, ss, acts, i + 1, j, n);
    RunKeeps(c, ss, acts, i);
    RunKeeps(c, ss, acts, j);
    RelayStepExact(c, ss[j], n);
  }

  // ----- all other steps -----

  lemma TrafficLeavesLog(c: Config, s: State, t: TrafficStep)
    requires TrafficEnabled(c, s, t) && !t.DataPacket? && !t.FinishRead?
    ensures TrafficNext(c, s, t).injected == s.injected
  {
  }

  /** Nothing else hands a packet on. */
  lemma OthersLeaveLog(c: Config, ss: seq<State>, acts: seq<Action>, i: nat)
    requires Run(c, ss, acts) && i < |acts|
    requires acts[i].Traffic? ==> !acts[i].t.DataPacket? && !acts[i].t.FinishRead?
    ensures ss[i + 1].injected == ss[i].injected
  {
    match acts[i]
    case Begin(_, _, _, _) =>
    case Handshake(id, h) => LogAfterHandshake(c, ss[i], id, h);
    case Hook(id, k) => LogAfterHook(c, ss[i], id, k);
    case Traffic(t) => TrafficLeavesLog(c, ss[i], t);
  }

  // ----- both halves of a read, one after the other -----

  lemma TakenUpLeaves(c: Config, s: State, t: TrafficStep)
    requires TrafficEnabled(c, s, t) && (t.ControlPacket? || t.RelayPacket?)
    ensures var s' := TrafficNext(c, s, t);
            && s'.injected == s.injected && s'.cryptos == s.cryptos && s'.uplink == s.uplink && s'.procs == s.procs
            && t.n in s'.received
  {
  }

  lemma ControlThrough(c: Config, s: State, n: nat, from: Addr, ct: Cipher)
    requires n !in s.received && from in s.table.byClient && from in s.cryptos
    ensures TrafficEnabled(c, s, ControlPacket(n, from, ct))
    ensures var s' := TrafficNext(c, s, ControlPacket(n, from, ct));
            && TrafficEnabled(c, s', FinishRead(n))
            && HandsOn(s.injected, TrafficNext(c, s', FinishRead(n)).injected, ControlPath, s.table.byClient[from],
                       s.cryptos[from].key, ct)
  {
    TakenUp(c, s, n, from, ct);
    TakenUpLeaves(c, s, ControlPacket(n, from, ct));
    ControlStepExact(c, TrafficNext(c, s, ControlPacket(n, from, ct)), n);
  }

  lemma RelayThrough(c: Config, s: State, n: nat, ip: IPv4, ct: Cipher)
    requires n !in s.received && ip in s.table.byTunIP
    requires ProcsOk(c, s.procs) && TableOk(s.procs, s.table) && CiphersOk(c, s.procs, s.cryptos, s.uplink)
    ensures TrafficEnabled(c, s, RelayPacket(n, ip, ct))
    ensures var s' := TrafficNext(c, s, RelayPacket(n, ip, ct));
            && TrafficEnabled(c, s', FinishRead(n))
            && HandsOn(s.injected, TrafficNext(c, s', FinishRead(n)).injected, RelayPath, s.table.byTunIP[ip],
                       SessionKey(c.token, ip), ct)
  {
    TakenUpRelayed(c, s, n, ip, ct);
    TakenUpLeaves(c, s, RelayPacket(n, ip, ct));
    RelayStepExact(c, TrafficNext(c, s, RelayPacket(n, ip, ct)), n);
  }
}
