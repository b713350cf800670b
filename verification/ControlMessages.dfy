/** The control messages between client, master and slaves (common/protocol/control.go). */
module ControlMessages {
  import opened Wrappers
  import opened Bytes
  import opened Crypto

  const CTRL_WELCOME: byte := 0x02

  const VERSION_2: byte := 0x02
  const VERSION_3: byte := 0x03

  const WELCOME_V2_SIZE := 22
  const WELCOME_V3_HEAD := 23
  const SLOT := 6

  datatype ParseError = ShortPacket | BadVersion

  datatype Endpoint = Endpoint(ip: IPv4, port: uint16)

  // ----- welcome -----

  type ServerId = s: seq<byte> | |s| == 8 witness [0, 0, 0, 0, 0, 0, 0, 0]

  datatype Welcome = Welcome(
    assignedIP: IPv4, slave: Endpoint, dataPort: uint16, serverId: ServerId, slaves: seq<Endpoint>)

  function Slot(e: Endpoint): seq<byte> {
    Put32(e.ip) + Put16(e.port)
  }

  function Slots(es: seq<Endpoint>): seq<byte> {
    if es == [] then [] else Slots(es[..|es| - 1]) + Slot(es[|es| - 1])
  }

  function Head(version: byte, m: Welcome): seq<byte> {
    [CTRL_WELCOME, version] + Put32(m.assignedIP) + Slot(m.slave) + Put16(m.dataPort) + m.serverId
  }

  /** The slaves that fit the count byte. */
  function Listed(es: seq<Endpoint>): seq<Endpoint> {
    if |es| > 255 then es[..255] else es
  }

  function Marshalled(m: Welcome): seq<byte> {
    if m.slaves == [] then Head(VERSION_2, m)
    else Head(VERSION_3, m) + [|Listed(m.slaves)|] + Slots(Listed(m.slaves))
  }

  lemma {:induction false} SlotsLength(es: seq<Endpoint>)
    ensures |Slots(es)| == SLOT * |es|
  {
    if es != [] {
      SlotsLength(es[..|es| - 1]);
    }
  }

  /** Slots of a longer list start with those of a shorter one. */
  lemma {:induction false} SlotsPrefix(es: seq<Endpoint>, k: nat)
    requires k <= |es|
    ensures |Slots(es)| == SLOT * |es| && Slots(es)[..SLOT * k] == Slots(es[..k])
  {
    SlotsLength(es);
    if k == |es| {
      assert es[..k] == es;
    } else {
      SlotsPrefix(es[..|es| - 1], k);
      assert es[..|es| - 1][..k] == es[..k];
    }
  }

  method WriteHead(b: array<byte>, version: byte, m: Welcome)
    requires b.Length >= WELCOME_V2_SIZE
    modifies b
    ensures b[..] == Head(version, m) + old(b[WELCOME_V2_SIZE..])
  {
    ghost var rest := b[WELCOME_V2_SIZE..];
    b[0], b[1] := CTRL_WELCOME, version;
    ghost var h0 := [CTRL_WELCOME, version];
    assert b[..2] == h0 && b[22..] == rest;
    Copy(b, 2, Put32(m.assignedIP));
    ghost var h1 := h0 + Put32(m.assignedIP);
    assert b[..6] == h1 && b[22..] == rest;
    Copy(b, 6, Slot(m.slave));
    ghost var h2 := h1 + Slot(m.slave);
    assert b[..12] == h2 && b[22..] == rest;
    Copy(b, 12, Put16(m.dataPort));
    ghost var h3 := h2 + Put16(m.dataPort);
    assert b[..14] == h3 && b[22..] == rest;
    Copy(b, 14, m.serverId);
    assert b[..22] == h3 + m.serverId && b[22..] == rest;
    assert b[..] == b[..22] + b[22..];
  }

  lemma SlotsAppend(head: seq<byte>, es: seq<Endpoint>, i: nat)
    requires i < |es|
    ensures head + Slots(es[..i + 1]) == (head + Slots(es[..i])) + Slot(es[i])
  {
    assert es[..i + 1][..i] == es[..i];
  }

  method MarshalV3(m: Welcome) returns (b: array<byte>)
    ensures fresh(b) && b[..] == Head(VERSION_3, m) + [|Listed(m.slaves)|] + Slots(Listed(m.slaves))
  {
    var listed := Listed(m.slaves);
    var n := |listed|;
    b := new byte[WELCOME_V3_HEAD + n * SLOT];
    WriteHead(b, VERSION_3, m);
    b[22] := n;
    ghost var head := Head(VERSION_3, m) + [n as byte];
    assert b[..23] == head;
    var off := WELCOME_V3_HEAD;
    for i := 0 to n
      invariant off == WELCOME_V3_HEAD + i * SLOT
      invariant b[..off] == head + Slots(listed[..i])
    {
      SlotsLength(listed[..i]);
      ghost var before := b[..off];
      Copy(b, off, Slot(listed[i]));
      assert b[..off + SLOT] == before + Slot(listed[i]);
      SlotsAppend(head, listed, i);
      off := off + SLOT;
    }
    assert listed[..n] == listed && b[..off] == b[..];
  }

  method Marshal(m: Welcome) returns (b: array<byte>)
    ensures fresh(b) && b[..] == Marshalled(m)
  {
    if |m.slaves| > 0 {
      b := MarshalV3(m);
    } else {
      b := new byte[WELCOME_V2_SIZE];
      WriteHead(b, VERSION_2, m);
      assert b[..] == Head(VERSION_2, m) + [];
    }
  }

  // Parsing.

  /** The endpoint in the slot at `off`. */
  function EndpointAt(b: seq<byte>, off: nat): Endpoint
    requires off + SLOT <= |b|
  {
    Endpoint(U32At(b, off), U16At(b, off + 4))
  }

  /** How many of `count` slots are there in full behind the head. */
  function Complete(b: seq<byte>, count: nat): nat
    requires |b| >= WELCOME_V3_HEAD
  {
    if WELCOME_V3_HEAD + SLOT * count <= |b| then count else (|b| - WELCOME_V3_HEAD) / SLOT
  }

  function EndpointsIn(b: seq<byte>, count: nat): seq<Endpoint>
    requires WELCOME_V3_HEAD + SLOT * count <= |b|
  {
    seq(count, i requires 0 <= i < count => EndpointAt(b, WELCOME_V3_HEAD + SLOT * i))
  }

  function Parsed(b: seq<byte>): Result<Welcome, ParseError> {
    if |b| < WELCOME_V2_SIZE then Err(ShortPacket)
    else if b[1] != VERSION_2 && b[1] != VERSION_3 then Err(BadVersion)
    else if b[1] == VERSION_3 && |b| < WELCOME_V3_HEAD then Err(ShortPacket)
    else
      var slaves := if b[1] == VERSION_3 then EndpointsIn(b, Complete(b, b[22])) else [];
      Ok(Welcome(U32At(b, 2), EndpointAt(b, 6), U16At(b, 12), b[14..22], slaves))
  }

  method ParseWelcome(b: seq<byte>) returns (r: Result<Welcome, ParseError>)
    ensures r == Parsed(b)
  {
    if |b| < WELCOME_V2_SIZE {
      return Err(ShortPacket);
    }
    if b[1] != VERSION_2 && b[1] != VERSION_3 {
      return Err(BadVersion);
    }
    var slaves: seq<Endpoint> := [];
    if b[1] == VERSION_3 {
      if |b| < WELCOME_V3_HEAD {
        return Err(ShortPacket);
      }
      var count: int := b[22];
      var off := WELCOME_V3_HEAD;
      for i := 0 to count
        invariant off == WELCOME_V3_HEAD + SLOT * i <= |b|
        invariant slaves == EndpointsIn(b, i)
      {
        if off + SLOT > |b| {
          assert i == Complete(b, count);
          return Ok(Welcome(U32At(b, 2), EndpointAt(b, 6), U16At(b, 12), b[14..22], slaves));
        }
        slaves := slaves + [EndpointAt(b, off)];
        off := off + SLOT;
      }
    }
    return Ok(Welcome(U32At(b, 2), EndpointAt(b, 6), U16At(b, 12), b[14..22], slaves));
  }

  lemma ReadsSlot(b: seq<byte>, off: nat, e: Endpoint)
    requires off + SLOT <= |b| && b[off..off + SLOT] == Slot(e)
    ensures EndpointAt(b, off) == e
  {
    var s := b[off..off + SLOT];
    assert s[0] == b[off] && s[1] == b[off + 1] && s[2] == b[off + 2] && s[3] == b[off + 3] && s[4] == b[off + 4]
      && s[5] == b[off + 5];
    assert Slot(e)[0] == Put32(e.ip)[0] && Slot(e)[3] == Put32(e.ip)[3] && Slot(e)[4] == Put16(e.port)[0];
    U32AtOfPut32(e.ip);
  }

  lemma ReadsHead(b: seq<byte>, version: byte, m: Welcome)
    requires |b| >= WELCOME_V2_SIZE && b[..WELCOME_V2_SIZE] == Head(version, m)
    ensures b[0] == CTRL_WELCOME && b[1] == version && U32At(b, 2) == m.assignedIP && EndpointAt(b, 6) == m.slave
    ensures U16At(b, 12) == m.dataPort && b[14..22] == m.serverId
  {
    var h := Head(version, m);
    assert b[2..6] == h[2..6] == Put32(m.assignedIP);
    assert b[2] == b[2..6][0] && b[3] == b[2..6][1] && b[4] == b[2..6][2] && b[5] == b[2..6][3];
    U32AtOfPut32(m.assignedIP);
    assert b[6..12] == h[6..12] == Slot(m.slave);
    ReadsSlot(b, 6, m.slave);
    assert b[12] == h[12] == Put16(m.dataPort)[0] && b[13] == h[13] == Put16(m.dataPort)[1];
    assert b[14..22] == h[14..22] == m.serverId;
  }

  /** The version 2 layout, and the front of the version 3 one. */
  predicate LaidOut(b: seq<byte>, version: byte, m: Welcome) {
    && |b| >= 22 && b[0] == 2 && b[1] == version
    && U32At(b, 2) == m.assignedIP && U32At(b, 6) == m.slave.ip && U16At(b, 10) == m.slave.port
    && U16At(b, 12) == m.dataPort && b[14..22] == m.serverId
  }

  /** A welcome on the wire: version 2 without a list, version 3 with the count and the slots of at most 255 slaves. */
  lemma WelcomeLayout(m: Welcome)
    ensures var b := Marshalled(m);
            var n := if |m.slaves| > 255 then 255 else |m.slaves|;
            if m.slaves == [] then |b| == 22 && LaidOut(b, 2, m)
            else
              && |b| == 23 + 6 * n && LaidOut(b, 3, m) && b[22] == n
              && forall i :: 0 <= i < n ==>
                   U32At(b, 23 + 6 * i) == m.slaves[i].ip && U16At(b, 27 + 6 * i) == m.slaves[i].port
  {
    var b := Marshalled(m);
    MarshalledLength(m);
    if m.slaves == [] {
      assert b[..WELCOME_V2_SIZE] == Head(VERSION_2, m);
      ReadsHead(b, VERSION_2, m);
    } else {
      assert b[..WELCOME_V2_SIZE] == Head(VERSION_3, m);
      ReadsHead(b, VERSION_3, m);
      var listed := Listed(m.slaves);
      forall i | 0 <= i < |listed| ensures EndpointAt(b, 23 + 6 * i) == m.slaves[i] {
        SlotInSlots(listed, i);
        assert b[WELCOME_V3_HEAD..] == Slots(listed);
        SlotAt(b, listed, |b|, i);
        assert b[..|b|] == b;
      }
    }
  }

  /** What is rejected, and why; the rest is read off the layout, with the slots that are there in full. */
  lemma ParsedExact(b: seq<byte>)
    ensures Parsed(b) == Err(ShortPacket) <==> |b| < 22 || (|b| == 22 && b[1] == 3)
    ensures Parsed(b) == Err(BadVersion) <==> |b| >= 22 && b[1] != 2 && b[1] != 3
    ensures Parsed(b).Ok? ==>
              var m := Parsed(b).value;
              && U32At(b, 2) == m.assignedIP && U32At(b, 6) == m.slave.ip && U16At(b, 10) == m.slave.port
              && U16At(b, 12) == m.dataPort && b[14..22] == m.serverId
              && (b[1] == 2 ==> m.slaves == [])
              && (b[1] == 3 ==>
                    && |m.slaves| <= b[22] && 23 + 6 * |m.slaves| <= |b|
                    && (|m.slaves| < b[22] ==> 23 + 6 * |m.slaves| + 6 > |b|)
                    && forall i :: 0 <= i < |m.slaves| ==>
                         m.slaves[i] == Endpoint(U32At(b, 23 + 6 * i), U16At(b, 27 + 6 * i)))
  {
  }

  /** Slot `i` of the encoded list is endpoint `i`. */
  lemma SlotInSlots(es: seq<Endpoint>, i: nat)
    requires i < |es|
    ensures |Slots(es)| == SLOT * |es| && Slots(es)[SLOT * i..SLOT * i + SLOT] == Slot(es[i])
  {
    SlotsPrefix(es, i + 1);
    SlotsLength(es[..i]);
    assert es[..i + 1][..i] == es[..i];
    assert Slots(es[..i + 1]) == Slots(es[..i]) + Slot(es[i]);
    assert Slots(es)[SLOT * i..SLOT * i + SLOT] == Slots(es)[..SLOT * (i + 1)][SLOT * i..];
  }

  lemma MarshalledLength(m: Welcome)
    ensures |Marshalled(m)| == if m.slaves == [] then WELCOME_V2_SIZE else WELCOME_V3_HEAD + SLOT * |Listed(m.slaves)|
  {
    SlotsLength(Listed(m.slaves));
  }

  /**
   A version 3 welcome cut to `k` bytes still parses if its head is included: to
   the same fields and exactly the slaves whose slots are there in full. Without
   its head it is rejected as short.
   */
  lemma TruncatedWelcome(m: Welcome, k: nat)
    requires m.slaves != [] && k <= WELCOME_V3_HEAD + SLOT * |Listed(m.slaves)|
    ensures k <= |Marshalled(m)|
    ensures k < WELCOME_V3_HEAD ==> Parsed(Marshalled(m)[..k]) == Err(ShortPacket)
    ensures k >= WELCOME_V3_HEAD ==>
              Parsed(Marshalled(m)[..k]) == Ok(m.(slaves := Listed(m.slaves)[..(k - WELCOME_V3_HEAD) / SLOT]))
  {
    MarshalledLength(m);
    if k < WELCOME_V3_HEAD {
      assert k > 1 ==> Marshalled(m)[..k][1] == Head(VERSION_3, m)[1];
    } else {
      TruncatedList(m, k);
    }
  }

  lemma TruncatedList(m: Welcome, k: nat)
    requires m.slaves != [] && WELCOME_V3_HEAD <= k <= WELCOME_V3_HEAD + SLOT * |Listed(m.slaves)| == |Marshalled(m)|
    ensures Parsed(Marshalled(m)[..k]) == Ok(m.(slaves := Listed(m.slaves)[..(k - WELCOME_V3_HEAD) / SLOT]))
  {
    var listed := Listed(m.slaves);
    var full, b := Marshalled(m), Marshalled(m)[..k];
    SlotsLength(listed);
    assert b[..WELCOME_V2_SIZE] == full[..WELCOME_V2_SIZE] == Head(VERSION_3, m);
    ReadsHead(b, VERSION_3, m);
    assert full[22] == |listed| && full[WELCOME_V3_HEAD..] == Slots(listed);
    var n := (k - WELCOME_V3_HEAD) / SLOT;
    assert Complete(b, |listed|) == n;
    forall i | 0 <= i < n ensures EndpointAt(b, WELCOME_V3_HEAD + SLOT * i) == listed[i] {
      SlotInSlots(listed, i);
      SlotAt(full, listed, k, i);
    }
    assert EndpointsIn(b, n) == listed[..n];
  }

  lemma TailSlice(s: seq<byte>, a: nat, lo: nat, hi: nat)
    requires lo <= hi && a + hi <= |s|
    ensures s[a..][lo..hi] == s[a + lo..a + hi]
  {
  }

  lemma SlotAt(full: seq<byte>, es: seq<Endpoint>, k: nat, i: nat)
    requires |full| >= k >= WELCOME_V3_HEAD + SLOT * i + SLOT && i < |es|
    requires full[WELCOME_V3_HEAD..] == Slots(es) && |Slots(es)| >= SLOT * i + SLOT
    requires Slots(es)[SLOT * i..SLOT * i + SLOT] == Slot(es[i])
    ensures EndpointAt(full[..k], WELCOME_V3_HEAD + SLOT * i) == es[i]
  {
    var off := WELCOME_V3_HEAD + SLOT * i;
    TailSlice(full, WELCOME_V3_HEAD, SLOT * i, SLOT * i + SLOT);
    assert full[..k][off..off + SLOT] == full[off..off + SLOT];
    ReadsSlot(full[..k], off, es[i]);
  }

  /** Parsing inverts marshalling, in both versions, up to the cut to 255 slaves. */
  lemma WelcomeRoundTrip(m: Welcome)
    ensures Parsed(Marshalled(m)) == Ok(m.(slaves := Listed(m.slaves)))
  {
    var full := Marshalled(m);
    if m.slaves == [] {
      assert full[..WELCOME_V2_SIZE] == Head(VERSION_2, m);
      ReadsHead(full, VERSION_2, m);
    } else {
      MarshalledLength(m);
      TruncatedWelcome(m, |full|);
      assert full[..|full|] == full;
      assert Listed(m.slaves)[..|Listed(m.slaves)|] == Listed(m.slaves);
    }
  }
}
