/** Uplink and downlink traffic over the lifecycle: which key opens what, and who receives it. */
module LifecycleTraffic {
  import opened Bytes
  import opened Crypto
  import opened SessionTable
  import opened SlaveNode
  import opened Lifecycle
  import opened LifecycleInvariants
  import opened LifecycleTheorems

  // ----- uplink -----

  /** The relay's cipher cache always holds what deriving the key afresh would give. */
  lemma RelayCacheExact(c: Config, ss: seq<State>, acts: seq<Action>, i: nat, ip: IPv4)
    requires Run(c, ss, acts) && i < |ss| && ip in ss[i].uplink
    ensures ss[i].uplink[ip] == SessionKey(c.token, ip)
  {
    RunKeeps(c, ss, acts, i);
  }

  /**
   Every packet handed to the network stack, on any path, carries as source the
   tunnel address of the session looked up for it; on the data and relay paths it
   was opened under that address's session key.
   */
  lemma InjectedPackets(c: Config, ss: seq<State>, acts: seq<Action>, i: nat, n: nat)
    requires Run(c, ss, acts) && i < |ss| && n < |ss[i].injected|
    ensures var j := ss[i].injected[n];
            && |j.pkt| >= 20 && j.pkt[0] / 16 == 4 && U32At(j.pkt, 12) == j.sess.ip
            && (j.path != ControlPath ==> j.key == SessionKey(c.token, j.sess.ip))
  {
    RunKeeps(c, ss, acts, i);
    var j := ss[i].injected[n];
    assert InjectionOk(c, ss[i].procs, j);
    Put32OfU32At(j.pkt, 12);
    Put32Injective(U32At(j.pkt, 12), j.sess.ip);
  }

  // ----- the two look-ups by client address -----

  /** When both indices answer for an address, they name the same session. */
  ghost predicate LookupsAgree(t: Indices, cryptos: map<Addr, ClientCipher>) {
    forall a :: a in t.byClient && a in cryptos ==> cryptos[a].owner == t.byClient[a].id
  }

  ghost predicate Agrees(s: State) {
    LookupsAgree(s.table, s.cryptos)
  }

  /**
   A handshake stores its cipher while its address still finds another session, or
   registers while its address carries another session's cipher.
   */
  predicate Splits(s: State, a: Action) {
    a.Handshake? && a.id in s.procs &&
    var from := s.procs[a.id].sess.client;
    match a.h
    case StoreCipher => from in s.table.byClient
    case Register => from in s.cryptos && s.cryptos[from].owner != a.id
    case _ => false
  }

  lemma AgreeAfterHandshake(c: Config, s: State, id: SessionId, h: HandshakeStep)
    requires HandshakeEnabled(c, s, id, h) && ProcOk(c, id, s.procs[id]) && TableOk(s.procs, s.table) && Agrees(s)
    ensures Agrees(HandshakeNext(c, s, id, h)) <==> !Splits(s, Handshake(id, h))
  {
    var p := s.procs[id];
    if h == StoreCipher {
      AgreeStored(s.table, s.cryptos, p.sess.client, ClientCipher(p.sess.key, id));
    } else if h == Register {
      AgreeAdded(s.table, s.cryptos, p.sess);
    }
  }

  lemma AgreeStored(t: Indices, cryptos: map<Addr, ClientCipher>, from: Addr, cc: ClientCipher)
    requires LookupsAgree(t, cryptos) && (from in t.byClient ==> t.byClient[from].id != cc.owner)
    ensures LookupsAgree(t, cryptos[from := cc]) <==> from !in t.byClient
  {
    assert from in t.byClient ==> cryptos[from := cc][from].owner != t.byClient[from].id;
  }

  lemma AgreeAdded(t: Indices, cryptos: map<Addr, ClientCipher>, sess: Session)
    requires LookupsAgree(t, cryptos)
    ensures LookupsAgree(Added(t, sess), cryptos) <==>
              !(sess.client in cryptos && cryptos[sess.client].owner != sess.id)
  {
    assert Added(t, sess).byClient[sess.client] == sess;
  }

  lemma AgreeAfterHook(c: Config, s: State, id: SessionId, k: HookStep)
    requires HookEnabled(c, s, id, k) && Agrees(s)
    ensures Agrees(HookNext(c, s, id, k))
  {
    var n := HookNext(c, s, id, k);
    assert forall a :: a in n.table.byClient ==> a in s.table.byClient && n.table.byClient[a] == s.table.byClient[a];
    assert forall a :: a in n.cryptos ==> a in s.cryptos && n.cryptos[a] == s.cryptos[a];
  }

  lemma AgreeStep(c: Config, s: State, a: Action)
    requires Enabled(c, s, a) && ProcsOk(c, s.procs) && TableOk(s.procs, s.table) && Agrees(s)
    ensures Agrees(Next(c, s, a)) <==> !Splits(s, a)
  {
    match a
    case Begin(_, _, _, _) =>
    case Handshake(id, h) => AgreeAfterHandshake(c, s, id, h);
    case Hook(id, k) => AgreeAfterHook(c, s, id, k);
    case Traffic(t) => TrafficLeaves(c, s, t);
  }

  /**
   Throughout a run the session found under a client address and the cipher found
   under it belong together exactly when no handshake stores its cipher over a
   session the address still finds, or registers over another's cipher.
   */
  lemma LookupsAgreeThroughout(c: Config, ss: seq<State>, acts: seq<Action>)
    requires Run(c, ss, acts)
    ensures (forall i :: 0 <= i < |ss| ==> Agrees(ss[i])) <==> (forall i :: 0 <= i < |acts| ==> !Splits(ss[i], acts[i]))
  {
    if forall i :: 0 <= i < |ss| ==> Agrees(ss[i]) {
      forall i | 0 <= i < |acts| ensures !Splits(ss[i], acts[i]) {
        assert Agrees(ss[i]) && Agrees(ss[i + 1]);
        RunKeeps(c, ss, acts, i);
        AgreeStep(c, ss[i], acts[i]);
      }
    }
    if forall i :: 0 <= i < |acts| ==> !Splits(ss[i], acts[i]) {
      forall i | 0 <= i < |ss| ensures Agrees(ss[i]) {
        AgreeAt(c, ss, acts, i);
      }
    }
  }

  lemma {:induction false} AgreeAt(c: Config, ss: seq<State>, acts: seq<Action>, i: nat)
    requires Run(c, ss, acts) && i < |ss|
    requires forall k :: 0 <= k < |acts| ==> !Splits(ss[k], acts[k])
    ensures Agrees(ss[i])
  {
    if i > 0 {
      AgreeAt(c, ss, acts, i - 1);
      RunKeeps(c, ss, acts, i - 1);
      AgreeStep(c, ss[i - 1], acts[i - 1]);
    }
  }

  // ----- whose key opened a packet -----

  ghost predicate LogKeys(c: Config, log: seq<Injection>) {
    forall i :: 0 <= i < |log| ==> log[i].key == SessionKey(c.token, log[i].sess.ip)
  }

  predicate Passes(key: Key, ct: Cipher, ip: IPv4) {
    Open(key, ct).Some? && SrcMatchesTunnel(Open(key, ct).value, ip)
  }

  /**
   The read of a control packet ends with a packet handed on, the cipher it finds
   being that of a session with another tunnel address than the session it found.
   */
  predicate Mixes(s: State, a: Action) {
    a.Traffic? && a.t.FinishRead? && a.t.n in s.received && s.received[a.t.n].ControlRead? &&
    var r := s.received[a.t.n];
    && r.from in s.cryptos && Passes(s.cryptos[r.from].key, r.c, r.sess.ip)
    && s.cryptos[r.from].owner in s.procs && s.procs[s.cryptos[r.from].owner].sess.ip != r.sess.ip
  }

  lemma LogKeysInjected(c: Config, log: seq<Injection>, path: Path, sess: Session, key: Key, ct: Cipher)
    ensures LogKeys(c, Injected(log, path, sess, key, ct)) <==>
              LogKeys(c, log) && (Passes(key, ct, sess.ip) ==> key == SessionKey(c.token, sess.ip))
  {
    var log' := Injected(log, path, sess, key, ct);
    assert forall i :: 0 <= i < |log| ==> log'[i] == log[i];
    if Passes(key, ct, sess.ip) {
      assert log'[|log|].key == key && log'[|log|].sess == sess;
    }
  }

  lemma KeysAfterRead(c: Config, s: State, n: nat)
    requires n in s.received && ReadOk(s.procs, s.received[n])
    requires ProcsOk(c, s.procs) && CiphersOk(c, s.procs, s.cryptos, s.uplink)
    ensures LogKeys(c, LogAfterRead(s, s.received[n])) <==> LogKeys(c, s.injected) && !Mixes(s, Traffic(FinishRead(n)))
  {
    var r := s.received[n];
    assert ProcOk(c, r.sess.id, s.procs[r.sess.id]);
    match r
    case ControlRead(sess, from, ct) =>
      if from in s.cryptos {
        var owner := s.cryptos[from].owner;
        assert ProcOk(c, owner, s.procs[owner]);
        LogKeysInjected(c, s.injected, ControlPath, sess, s.cryptos[from].key, ct);
        if s.cryptos[from].key == SessionKey(c.token, sess.ip) {
          SessionKeyInjective(c.token, s.procs[owner].sess.ip, sess.ip);
        }
      }
    case RelayRead(sess, ct) =>
      LogKeysInjected(c, s.injected, RelayPath, sess, RelayKey(s.uplink, sess), ct);
  }

  lemma KeysAfterTraffic(c: Config, s: State, t: TrafficStep)
    requires TrafficEnabled(c, s, t) && ProcsOk(c, s.procs) && CiphersOk(c, s.procs, s.cryptos, s.uplink)
    requires PacketsOk(c, s.procs, s.received, s.injected)
    ensures LogKeys(c, TrafficNext(c, s, t).injected) <==> LogKeys(c, s.injected) && !Mixes(s, Traffic(t))
  {
    match t
    case FinishRead(n) => KeysAfterRead(c, s, n);
    case DataPacket(id, ct) =>
      assert ProcOk(c, id, s.procs[id]);
      LogKeysInjected(c, s.injected, DataPath, s.procs[id].sess, s.procs[id].sess.key, ct);
    case _ =>
  }

  lemma LogAfterHandshake(c: Config, s: State, id: SessionId, h: HandshakeStep)
    requires HandshakeEnabled(c, s, id, h)
    ensures HandshakeNext(c, s, id, h).injected == s.injected
  {
  }

  lemma LogAfterHook(c: Config, s: State, id: SessionId, k: HookStep)
    requires HookEnabled(c, s, id, k)
    ensures HookNext(c, s, id, k).injected == s.injected
  {
  }

  lemma KeysStep(c: Config, s: State, a: Action)
    requires Enabled(c, s, a) && ProcsOk(c, s.procs) && CiphersOk(c, s.procs, s.cryptos, s.uplink)
    requires PacketsOk(c, s.procs, s.received, s.injected)
    ensures LogKeys(c, Next(c, s, a).injected) <==> LogKeys(c, s.injected) && !Mixes(s, a)
  {
    match a
    case Begin(_, _, _, _) =>
    case Handshake(id, h) => LogAfterHandshake(c, s, id, h);
    case Hook(id, k) => LogAfterHook(c, s, id, k);
    case Traffic(t) => KeysAfterTraffic(c, s, t);
  }

  /**
   Every packet handed on so far was opened under the session key of the session
   looked up for it exactly when no control packet met a cipher stored for another
   tunnel address that opened it.
   */
  lemma {:induction false} OwnKeysExactly(c: Config, ss: seq<State>, acts: seq<Action>, i: nat)
    requires Run(c, ss, acts) && i < |ss|
    ensures LogKeys(c, ss[i].injected) <==> forall k :: 0 <= k < i ==> !Mixes(ss[k], acts[k])
  {
    if i > 0 {
      OwnKeysExactly(c, ss, acts, i - 1);
      RunKeeps(c, ss, acts, i - 1);
      KeysStep(c, ss[i - 1], acts[i - 1]);
    }
  }

  // ----- whether a session has its cipher -----

  /** Every session in the table finds its own cipher under its client address. */
  ghost predicate AllHaveCiphers(t: Indices, cryptos: map<Addr, ClientCipher>) {
    forall id :: id in t.byID ==> t.byID[id].client in cryptos && cryptos[t.byID[id].client].owner == id
  }

  ghost predicate CiphersComplete(s: State) {
    AllHaveCiphers(s.table, s.cryptos)
  }

  /**
   A cipher of a session in the table is overwritten by a handshake or dropped by
   another session's hook, or a session registers without its own.
   */
  predicate Strands(s: State, a: Action) {
    match a
    case Handshake(id, StoreCipher) =>
      id in s.procs &&
      var from := s.procs[id].sess.client;
      from in s.cryptos && s.cryptos[from].owner in s.table.byID
    case Handshake(id, Register) =>
      id in s.procs &&
      var from := s.procs[id].sess.client;
      !(from in s.cryptos && s.cryptos[from].owner == id)
    case Hook(id, DropClientCipher) =>
      id in s.procs &&
      var from := s.procs[id].sess.client;
      from in s.cryptos && s.cryptos[from].owner in s.table.byID
    case _ => false
  }

  /** The owner of the cipher at `from`, if in the table, is there with that address. */
  lemma OwnerAt(
    c: Config, procs: Procs, t: Indices, cryptos: map<Addr, ClientCipher>, uplink: map<IPv4, Key>, from: Addr)
    requires CiphersOk(c, procs, cryptos, uplink) && TableOk(procs, t)
    requires from in cryptos && cryptos[from].owner in t.byID
    ensures t.byID[cryptos[from].owner].client == from
  {
  }

  lemma CompleteAfterHandshake(c: Config, s: State, id: SessionId, h: HandshakeStep)
    requires HandshakeEnabled(c, s, id, h) && ProcOk(c, id, s.procs[id]) && TableOk(s.procs, s.table)
    requires CiphersOk(c, s.procs, s.cryptos, s.uplink) && CiphersComplete(s)
    ensures CiphersComplete(HandshakeNext(c, s, id, h)) <==> !Strands(s, Handshake(id, h))
  {
    var p := s.procs[id];
    if h == StoreCipher {
      CompleteStored(c, s.procs, s.table, s.cryptos, s.uplink, p.sess.client, ClientCipher(p.sess.key, id));
    } else if h == Register {
      CompleteAdded(s.table, s.cryptos, p.sess);
    }
  }

  lemma CompleteStored(
    c: Config, procs: Procs, t: Indices, cryptos: map<Addr, ClientCipher>, uplink: map<IPv4, Key>, from: Addr,
    cc: ClientCipher)
    requires CiphersOk(c, procs, cryptos, uplink) && TableOk(procs, t)
    requires AllHaveCiphers(t, cryptos) && cc.owner !in t.byID
    ensures AllHaveCiphers(t, cryptos[from := cc]) <==> !(from in cryptos && cryptos[from].owner in t.byID)
  {
    if from in cryptos && cryptos[from].owner in t.byID {
      OwnerAt(c, procs, t, cryptos, uplink, from);
      assert cryptos[from := cc][t.byID[cryptos[from].owner].client].owner == cc.owner;
    }
  }

  lemma CompleteAdded(t: Indices, cryptos: map<Addr, ClientCipher>, sess: Session)
    requires AllHaveCiphers(t, cryptos) && sess.id !in t.byID
    ensures AllHaveCiphers(Added(t, sess), cryptos) <==>
              sess.client in cryptos && cryptos[sess.client].owner == sess.id
  {
    assert Added(t, sess).byID[sess.id] == sess;
  }

  lemma CompleteDropped(
    c: Config, procs: Procs, t: Indices, cryptos: map<Addr, ClientCipher>, uplink: map<IPv4, Key>, from: Addr)
    requires CiphersOk(c, procs, cryptos, uplink) && TableOk(procs, t) && AllHaveCiphers(t, cryptos)
    ensures AllHaveCiphers(t, cryptos - {from}) <==> !(from in cryptos && cryptos[from].owner in t.byID)
  {
    if from in cryptos && cryptos[from].owner in t.byID {
      OwnerAt(c, procs, t, cryptos, uplink, from);
      assert t.byID[cryptos[from].owner].client !in cryptos - {from};
    }
  }

  lemma CompleteRemoved(t: Indices, cryptos: map<Addr, ClientCipher>, id: SessionId)
    requires AllHaveCiphers(t, cryptos)
    ensures AllHaveCiphers(Removed(t, id), cryptos)
  {
  }

  lemma CompleteAfterHook(c: Config, s: State, id: SessionId, k: HookStep)
    requires HookEnabled(c, s, id, k) && TableOk(s.procs, s.table)
    requires CiphersOk(c, s.procs, s.cryptos, s.uplink) && CiphersComplete(s)
    ensures CiphersComplete(HookNext(c, s, id, k)) <==> !Strands(s, Hook(id, k))
  {
    if k == DropClientCipher {
      CompleteDropped(c, s.procs, s.table, s.cryptos, s.uplink, s.procs[id].sess.client);
    } else if k == Remove {
      CompleteRemoved(s.table, s.cryptos, id);
    }
  }

  lemma CompleteStep(c: Config, s: State, a: Action)
    requires Enabled(c, s, a) && ProcsOk(c, s.procs) && TableOk(s.procs, s.table)
    requires CiphersOk(c, s.procs, s.cryptos, s.uplink) && CiphersComplete(s)
    ensures CiphersComplete(Next(c, s, a)) <==> !Strands(s, a)
  {
    match a
    case Begin(_, _, _, _) =>
    case Handshake(id, h) => CompleteAfterHandshake(c, s, id, h);
    case Hook(id, k) => CompleteAfterHook(c, s, id, k);
    case Traffic(t) => TrafficLeaves(c, s, t);
  }

  /** Throughout a run every session in the table has its own cipher stored exactly when no step strands one. */
  lemma CiphersCompleteThroughout(c: Config, ss: seq<State>, acts: seq<Action>)
    requires Run(c, ss, acts)
    ensures (forall i :: 0 <= i < |ss| ==> CiphersComplete(ss[i])) <==>
              (forall i :: 0 <= i < |acts| ==> !Strands(ss[i], acts[i]))
  {
    if forall i :: 0 <= i < |ss| ==> CiphersComplete(ss[i]) {
      forall i | 0 <= i < |acts| ensures !Strands(ss[i], acts[i]) {
        assert CiphersComplete(ss[i]) && CiphersComplete(ss[i + 1]);
        RunKeeps(c, ss, acts, i);
        CompleteStep(c, ss[i], acts[i]);
      }
    }
    if forall i :: 0 <= i < |acts| ==> !Strands(ss[i], acts[i]) {
      forall i | 0 <= i < |ss| ensures CiphersComplete(ss[i]) {
        CompleteAt(c, ss, acts, i);
      }
    }
  }

  lemma {:induction false} CompleteAt(c: Config, ss: seq<State>, acts: seq<Action>, i: nat)
    requires Run(c, ss, acts) && i < |ss|
    requires forall k :: 0 <= k < |acts| ==> !Strands(ss[k], acts[k])
    ensures CiphersComplete(ss[i])
  {
    if i > 0 {
      CompleteAt(c, ss, acts, i - 1);
      RunKeeps(c, ss, acts, i - 1);
      CompleteStep(c, ss[i - 1], acts[i - 1]);
    }
  }

  // ----- one listener per client address -----

  predicate Flies(procs: Procs, id: SessionId) {
    id in procs && procs[id].InFlight()
  }

  /** A handshake has drawn an address for this client and is not yet in the table. */
  ghost predicate FlightAt(procs: Procs, a: Addr) {
    exists id :: Flies(procs, id) && procs[id].sess.client == a
  }

  predicate ControlReadAt(r: Read, a: Addr) {
    r.ControlRead? && r.from == a
  }

  /**
   One listener per client address: it works on one datagram at a time, so no
   handshake starts while another, or the read of a data packet, is under way for
   the address, and no data packet is taken up during a handshake.
   */
  ghost predicate Serial(s: State, a: Action) {
    match a
    case Begin(_, client, _, _) =>
      !FlightAt(s.procs, client) && forall n :: n in s.received ==> !ControlReadAt(s.received[n], client)
    case Traffic(t) => t.ControlPacket? ==> !FlightAt(s.procs, t.from)
    case _ => true
  }

  ghost predicate OneFlight(procs: Procs) {
    forall i, j :: Flies(procs, i) && Flies(procs, j) && procs[i].sess.client == procs[j].sess.client ==> i == j
  }

  /** The cipher under the address of a handshake in flight is its own, once stored. */
  ghost predicate FlightsOwn(procs: Procs, cryptos: map<Addr, ClientCipher>) {
    forall id :: Flies(procs, id) && KEYED <= procs[id].stage && procs[id].sess.client in cryptos ==>
      cryptos[procs[id].sess.client].owner == id
  }

  /** The look-ups agree wherever the cipher's session is no longer in flight. */
  ghost predicate SettledAgree(procs: Procs, t: Indices, cryptos: map<Addr, ClientCipher>) {
    forall a :: a in t.byClient && a in cryptos && !Flies(procs, cryptos[a].owner) ==>
      cryptos[a].owner == t.byClient[a].id
  }

  ghost predicate ReadsAgree(procs: Procs, cryptos: map<Addr, ClientCipher>, received: map<nat, Read>) {
    forall n :: n in received && received[n].ControlRead? ==>
      var a := received[n].from;
      !FlightAt(procs, a) && (a in cryptos ==> cryptos[a].owner == received[n].sess.id)
  }

  ghost predicate SerialInv(c: Config, s: State) {
    && OneFlight(s.procs)
    && FlightsOwn(s.procs, s.cryptos)
    && SettledAgree(s.procs, s.table, s.cryptos)
    && ReadsAgree(s.procs, s.cryptos, s.received)
    && LogKeys(c, s.injected)
  }

  lemma SettledRegistered(procs: Procs, id: SessionId, p: Proc, t: Indices, cryptos: map<Addr, ClientCipher>)
    requires SettledAgree(procs, t, cryptos) && id in procs && procs[id].InFlight() && !p.InFlight() && p.sess.id == id
    requires forall a :: a in cryptos && cryptos[a].owner == id ==> a == p.sess.client
    requires p.sess.client in cryptos ==> cryptos[p.sess.client].owner == id
    ensures SettledAgree(procs[id := p], Added(t, p.sess), cryptos)
  {
    assert forall j :: Flies(procs[id := p], j) <==> Flies(procs, j) && j != id;
  }

  lemma SettledAfterHandshake(c: Config, s: State, id: SessionId, h: HandshakeStep)
    requires HandshakeEnabled(c, s, id, h) && ProcOk(c, id, s.procs[id]) && FlightsOwn(s.procs, s.cryptos)
    requires CiphersOk(c, s.procs, s.cryptos, s.uplink) && SettledAgree(s.procs, s.table, s.cryptos)
    ensures var n := HandshakeNext(c, s, id, h); SettledAgree(n.procs, n.table, n.cryptos)
  {
    var n, p := HandshakeNext(c, s, id, h), HandshakeProc(s.procs[id], h);
    if h == Register {
      assert Flies(s.procs, id);
      SettledRegistered(s.procs, id, p, s.table, s.cryptos);
    } else {
      forall a | a in n.table.byClient && a in n.cryptos && !Flies(n.procs, n.cryptos[a].owner)
        ensures n.cryptos[a].owner == n.table.byClient[a].id
      {
        assert n.cryptos[a].owner != id || !Flies(s.procs, id);
      }
    }
  }

  lemma SettledAfterHook(c: Config, s: State, id: SessionId, k: HookStep)
    requires HookEnabled(c, s, id, k) && SettledAgree(s.procs, s.table, s.cryptos)
    ensures var n := HookNext(c, s, id, k); SettledAgree(n.procs, n.table, n.cryptos)
  {
    var n := HookNext(c, s, id, k);
    assert forall j :: Flies(n.procs, j) <==> Flies(s.procs, j);
    assert forall a :: a in n.table.byClient ==> a in s.table.byClient && n.table.byClient[a] == s.table.byClient[a];
    assert forall a :: a in n.cryptos ==> a in s.cryptos && n.cryptos[a] == s.cryptos[a];
  }

  lemma SettledAfterBegin(c: Config, s: State, id: SessionId, client: Addr, v3: bool, pick: SlaveId)
    requires BeginEnabled(c, s, id, pick) && CiphersOk(c, s.procs, s.cryptos, s.uplink)
    requires SettledAgree(s.procs, s.table, s.cryptos)
    ensures var n := Begun(c, s, id, client, v3, pick); SettledAgree(n.procs, n.table, n.cryptos)
  {
    var n := Begun(c, s, id, client, v3, pick);
    assert forall j :: Flies(s.procs, j) ==> Flies(n.procs, j);
  }

  lemma FlightsAfterBegin(
    procs: Procs, id: SessionId, p: Proc, cryptos: map<Addr, ClientCipher>, received: map<nat, Read>)
    requires id !in procs && p.stage == DRAWN && !FlightAt(procs, p.sess.client)
    requires forall n :: n in received ==> !ControlReadAt(received[n], p.sess.client)
    requires OneFlight(procs) && FlightsOwn(procs, cryptos) && ReadsAgree(procs, cryptos, received)
    ensures var procs' := procs[id := p];
            OneFlight(procs') && FlightsOwn(procs', cryptos) && ReadsAgree(procs', cryptos, received)
  {
    var procs' := procs[id := p];
    assert forall j :: Flies(procs', j) <==> Flies(procs, j) || j == id;
    assert forall a :: FlightAt(procs', a) ==> FlightAt(procs, a) || a == p.sess.client;
  }

  lemma SerialAfterBegin(c: Config, s: State, id: SessionId, client: Addr, v3: bool, pick: SlaveId)
    requires BeginEnabled(c, s, id, pick) && CiphersOk(c, s.procs, s.cryptos, s.uplink) && SerialInv(c, s)
    requires Serial(s, Begin(id, client, v3, pick))
    ensures SerialInv(c, Begun(c, s, id, client, v3, pick))
  {
    SettledAfterBegin(c, s, id, client, v3, pick);
    FlightsAfterBegin(s.procs, id, Begun(c, s, id, client, v3, pick).procs[id], s.cryptos, s.received);
  }

  /** Flights only end, and a handshake in flight stores its own cipher at most. */
  lemma FlightsAfterHandshake(
    procs: Procs, id: SessionId, p: Proc, cryptos: map<Addr, ClientCipher>, cryptos': map<Addr, ClientCipher>,
    received: map<nat, Read>)
    requires id in procs && p.sess.client == procs[id].sess.client && (p.InFlight() ==> Flies(procs, id))
    requires
      || cryptos' == cryptos
      || (Flies(procs, id) && exists key :: cryptos' == cryptos[p.sess.client := ClientCipher(key, id)])
    requires p.InFlight() && KEYED <= p.stage && procs[id].stage < KEYED && p.sess.client in cryptos' ==>
               cryptos'[p.sess.client].owner == id
    requires OneFlight(procs) && FlightsOwn(procs, cryptos) && ReadsAgree(procs, cryptos, received)
    ensures var procs' := procs[id := p];
            OneFlight(procs') && FlightsOwn(procs', cryptos') && ReadsAgree(procs', cryptos', received)
  {
    var procs' := procs[id := p];
    assert forall j :: Flies(procs', j) ==> Flies(procs, j) && procs'[j].sess.client == procs[j].sess.client;
    assert forall a :: FlightAt(procs', a) ==> FlightAt(procs, a);
    assert Flies(procs, id) ==> FlightAt(procs, p.sess.client);
  }

  lemma SerialAfterHandshake(c: Config, s: State, id: SessionId, h: HandshakeStep)
    requires HandshakeEnabled(c, s, id, h) && ProcOk(c, id, s.procs[id])
    requires CiphersOk(c, s.procs, s.cryptos, s.uplink) && SerialInv(c, s)
    ensures SerialInv(c, HandshakeNext(c, s, id, h))
  {
    var n, p := HandshakeNext(c, s, id, h), HandshakeProc(s.procs[id], h);
    var key := p.sess.key;
    assert h == StoreCipher ==> n.cryptos == s.cryptos[p.sess.client := ClientCipher(key, id)];
    FlightsAfterHandshake(s.procs, id, p, s.cryptos, n.cryptos, s.received);
    SettledAfterHandshake(c, s, id, h);
  }

  lemma SerialAfterHook(c: Config, s: State, id: SessionId, k: HookStep)
    requires HookEnabled(c, s, id, k) && SerialInv(c, s)
    ensures SerialInv(c, HookNext(c, s, id, k))
  {
    var n := HookNext(c, s, id, k);
    assert forall j :: Flies(n.procs, j) <==> Flies(s.procs, j);
    assert forall j :: Flies(n.procs, j) ==> n.procs[j] == s.procs[j];
    assert forall a :: FlightAt(n.procs, a) ==> FlightAt(s.procs, a);
    SettledAfterHook(c, s, id, k);
  }

  lemma SerialUnmixed(c: Config, s: State, t: TrafficStep)
    requires PacketsOk(c, s.procs, s.received, s.injected) && ReadsAgree(s.procs, s.cryptos, s.received)
    ensures !Mixes(s, Traffic(t))
  {
    assert t.FinishRead? && t.n in s.received ==> ReadOk(s.procs, s.received[t.n]);
  }

  lemma SerialAfterTraffic(c: Config, s: State, t: TrafficStep)
    requires TrafficEnabled(c, s, t) && ProcsOk(c, s.procs) && TableOk(s.procs, s.table)
    requires CiphersOk(c, s.procs, s.cryptos, s.uplink) && PacketsOk(c, s.procs, s.received, s.injected)
    requires SerialInv(c, s) && Serial(s, Traffic(t))
    ensures SerialInv(c, TrafficNext(c, s, t))
  {
    TrafficLeaves(c, s, t);
    ReadsAfterTraffic(c, s, t);
    SerialUnmixed(c, s, t);
    KeysAfterTraffic(c, s, t);
  }

  lemma ReadsAfterTraffic(c: Config, s: State, t: TrafficStep)
    requires TrafficEnabled(c, s, t) && CiphersOk(c, s.procs, s.cryptos, s.uplink)
    requires SettledAgree(s.procs, s.table, s.cryptos) && ReadsAgree(s.procs, s.cryptos, s.received)
    requires Serial(s, Traffic(t))
    ensures ReadsAgree(s.procs, s.cryptos, TrafficNext(c, s, t).received)
  {
    if t.ControlPacket? && t.from in s.cryptos {
      assert !Flies(s.procs, s.cryptos[t.from].owner);
    }
  }

  lemma SerialStep(c: Config, s: State, a: Action)
    requires Enabled(c, s, a) && Inv(c, s) && SerialInv(c, s) && Serial(s, a)
    ensures SerialInv(c, Next(c, s, a))
  {
    match a
    case Begin(id, client, v3, pick) => SerialAfterBegin(c, s, id, client, v3, pick);
    case Handshake(id, h) => SerialAfterHandshake(c, s, id, h);
    case Hook(id, k) => SerialAfterHook(c, s, id, k);
    case Traffic(t) => SerialAfterTraffic(c, s, t);
  }

  lemma {:induction false} SerialRun(c: Config, ss: seq<State>, acts: seq<Action>, i: nat)
    requires Run(c, ss, acts) && i < |ss|
    requires forall k :: 0 <= k < |acts| ==> Serial(ss[k], acts[k])
    ensures SerialInv(c, ss[i])
  {
    if i > 0 {
      SerialRun(c, ss, acts, i - 1);
      RunKeeps(c, ss, acts, i - 1);
      SerialStep(c, ss[i - 1], acts[i - 1]);
    }
  }

  /**
   With one listener per client address, every packet handed to the network stack
   was opened under the session key of the session looked up for it, on all three
   paths, and outside of a handshake for it the look-ups by client address agree.
   */
  lemma SerialPackets(c: Config, ss: seq<State>, acts: seq<Action>, i: nat)
    requires Run(c, ss, acts) && i < |ss|
    requires forall k :: 0 <= k < |acts| ==> Serial(ss[k], acts[k])
    ensures forall n :: 0 <= n < |ss[i].injected| ==>
              ss[i].injected[n].key == SessionKey(c.token, ss[i].injected[n].sess.ip)
    ensures forall a :: a in ss[i].table.byClient && a in ss[i].cryptos && !FlightAt(ss[i].procs, a) ==>
              ss[i].cryptos[a].owner == ss[i].table.byClient[a].id
  {
    SerialRun(c, ss, acts, i);
    RunKeeps(c, ss, acts, i);
    var s := ss[i];
    assert forall a :: a in s.cryptos && !FlightAt(s.procs, a) ==> !Flies(s.procs, s.cryptos[a].owner);
  }
}
