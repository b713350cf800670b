/** The four carrier framings (common/transport, common/protocol/packet.go). */
module Carriers {
  import opened Wrappers
  import opened Bytes

  const PKT_KEEPALIVE: byte := 0x03
  const PKT_HANDSHAKE: byte := 0x04

  const STUN_COOKIE: uint32 := 0x2112_A442

  type Id8 = s: seq<byte> | |s| == 8 witness [0, 0, 0, 0, 0, 0, 0, 0]
  type TransactionId = s: seq<byte> | |s| == 12 witness [0, 0, 0, 0, 0, 0, 0, 0, 0, 0, 0, 0]

  datatype Carrier = CS2 | UTP | WebRTC | QUIC

  // ----- frames -----

  function Cs2Header(t: byte): seq<byte> {
    [0xFF, 0xFF, 0xFF, 0xFF, 0x41, t, 0, 0, 0]
  }

  /** The cover type in the high nibble: SYN, STATE or DATA. */
  function UtpType(t: byte): byte {
    if t == PKT_HANDSHAKE then 4 else if t == PKT_KEEPALIVE then 2 else 0
  }

  function UtpHeader(t: byte, connId: uint16, timestamp: uint32, seqNr: uint16): seq<byte> {
    [UtpType(t) * 16 + 1, 0] + Put16(connId) + Put32(timestamp) + Put32(0) + Put32(0x10_0000) + Put16(seqNr) + Put16(0)
    + [t]
  }

  function StunHeader(t: byte, length: uint16, transaction: TransactionId): seq<byte> {
    Put16(1) + Put16(length) + Put32(STUN_COOKIE) + transaction + [t]
  }

  function RtpHeader(t: byte, seqNr: uint16, timestamp: uint32, ssrc: uint32): seq<byte> {
    [0x80, 0x60] + Put16(seqNr) + Put32(timestamp) + Put32(ssrc) + [t]
  }

  function LongHeader(t: byte, dcid: Id8, scid: Id8): seq<byte> {
    [0xC0] + Put32(1) + [8] + dcid + [8] + scid + [t]
  }

  function ShortHeader(t: byte, dcid: Id8, packetNumber: uint32): seq<byte> {
    [0x40] + dcid + Put32(packetNumber) + [t]
  }

  /**
   Everything a sender puts into a header besides the packet type: identifiers drawn
   at random, the clock, and the counter of the frame.
   */
  datatype Fields = Fields(
    connId: uint16, ssrc: uint32, dcid: Id8, scid: Id8, transaction: TransactionId, timestamp: uint32, counter: uint32)

  function Header(c: Carrier, f: Fields, t: byte, size: nat): seq<byte> {
    match c
    case CS2 => Cs2Header(t)
    case UTP => UtpHeader(t, f.connId, f.timestamp, f.counter % 0x1_0000)
    case WebRTC =>
      if t == PKT_HANDSHAKE then StunHeader(t, (1 + size) % 0x1_0000, f.transaction)
      else RtpHeader(t, f.counter % 0x1_0000, f.timestamp, f.ssrc)
    case QUIC =>
      if t == PKT_HANDSHAKE then LongHeader(t, f.dcid, f.scid) else ShortHeader(t, f.dcid, f.counter)
  }

  function Frame(c: Carrier, f: Fields, t: byte, payload: seq<byte>): seq<byte> {
    Header(c, f, t, |payload|) + payload
  }

  /** Handshakes of WebRTC and QUIC do not use the counter. */
  predicate Counts(c: Carrier, t: byte) {
    c == UTP || (c != CS2 && t != PKT_HANDSHAKE)
  }

  // ----- unwrapping -----

  function Split(raw: seq<byte>, header: nat): Option<(byte, seq<byte>)>
    requires 0 < header <= |raw|
  {
    Some((raw[header - 1], raw[header..]))
  }

  function UnwrapCs2(raw: seq<byte>): Option<(byte, seq<byte>)> {
    if |raw| < 9 || raw[0] != 0xFF || raw[1] != 0xFF || raw[2] != 0xFF || raw[3] != 0xFF then None
    else Some((raw[5], raw[9..]))
  }

  function UnwrapUtp(raw: seq<byte>): Option<(byte, seq<byte>)> {
    if |raw| < 21 || raw[0] % 16 != 1 then None else Split(raw, 21)
  }

  function UnwrapWebRtc(raw: seq<byte>): Option<(byte, seq<byte>)> {
    if |raw| >= 13 && raw[0] == 0x80 then Split(raw, 13)
    else if |raw| >= 21 && raw[0] < 0x40 && U32At(raw, 4) == STUN_COOKIE then Split(raw, 21)
    else None
  }

  function UnwrapQuic(raw: seq<byte>): Option<(byte, seq<byte>)> {
    if |raw| == 0 then None
    else if raw[0] == 0xC0 && |raw| >= 24 && U32At(raw, 1) == 1 then Split(raw, 24)
    else if raw[0] == 0x40 && |raw| >= 14 then Split(raw, 14)
    else None
  }

  function Unwrap(c: Carrier, raw: seq<byte>): Option<(byte, seq<byte>)> {
    match c
    case CS2 => UnwrapCs2(raw)
    case UTP => UnwrapUtp(raw)
    case WebRTC => UnwrapWebRtc(raw)
    case QUIC => UnwrapQuic(raw)
  }

  // ----- senders -----

  /** Writes a field behind what has been written. */
  method Field(frame: array<byte>, off: nat, field: seq<byte>)
    requires off + |field| <= frame.Length
    modifies frame
    ensures frame[..off + |field|] == old(frame[..off]) + field
  {
    Copy(frame, off, field);
  }

  method WrapCs2(t: byte, payload: seq<byte>) returns (frame: array<byte>)
    ensures fresh(frame) && frame[..] == Cs2Header(t) + payload
  {
    frame := new byte[9 + |payload|];
    frame[0], frame[1], frame[2], frame[3] := 0xFF, 0xFF, 0xFF, 0xFF;
    frame[4], frame[5] := 0x41, t;
    frame[6], frame[7] := 0, 0;
    frame[8] := 0;
    assert frame[..9] == Cs2Header(t);
    Field(frame, 9, payload);
    assert frame[..9 + |payload|] == frame[..];
  }

  method WrapUtp(t: byte, payload: seq<byte>, connId: uint16, timestamp: uint32, seqNr: uint16)
    returns (frame: array<byte>)
    ensures fresh(frame) && frame[..] == UtpHeader(t, connId, timestamp, seqNr) + payload
  {
    frame := new byte[21 + |payload|];
    frame[0], frame[1] := UtpType(t) * 16 + 1, 0;
    assert frame[..2] == [UtpType(t) * 16 + 1, 0];
    Field(frame, 2, Put16(connId));
    Field(frame, 4, Put32(timestamp));
    Field(frame, 8, Put32(0));
    Field(frame, 12, Put32(0x10_0000));
    Field(frame, 16, Put16(seqNr));
    Field(frame, 18, Put16(0));
    Field(frame, 20, [t]);
    Field(frame, 21, payload);
    assert frame[..21 + |payload|] == frame[..];
  }

  method WrapStun(t: byte, payload: seq<byte>, transaction: TransactionId) returns (frame: array<byte>)
    ensures fresh(frame) && frame[..] == StunHeader(t, (1 + |payload|) % 0x1_0000, transaction) + payload
  {
    frame := new byte[21 + |payload|];
    Field(frame, 0, Put16(1));
    assert frame[..2] == Put16(1);
    Field(frame, 2, Put16((1 + |payload|) % 0x1_0000));
    Field(frame, 4, Put32(STUN_COOKIE));
    Field(frame, 8, transaction);
    Field(frame, 20, [t]);
    Field(frame, 21, payload);
    assert frame[..21 + |payload|] == frame[..];
  }

  method WrapRtp(t: byte, payload: seq<byte>, seqNr: uint16, timestamp: uint32, ssrc: uint32)
    returns (frame: array<byte>)
    ensures fresh(frame) && frame[..] == RtpHeader(t, seqNr, timestamp, ssrc) + payload
  {
    frame := new byte[13 + |payload|];
    frame[0], frame[1] := 0x80, 0x60;
    assert frame[..2] == [0x80, 0x60];
    Field(frame, 2, Put16(seqNr));
    Field(frame, 4, Put32(timestamp));
    Field(frame, 8, Put32(ssrc));
    Field(frame, 12, [t]);
    Field(frame, 13, payload);
    assert frame[..13 + |payload|] == frame[..];
  }

  method WrapLong(t: byte, payload: seq<byte>, dcid: Id8, scid: Id8) returns (frame: array<byte>)
    ensures fresh(frame) && frame[..] == LongHeader(t, dcid, scid) + payload
  {
    frame := new byte[24 + |payload|];
    frame[0] := 0xC0;
    assert frame[..1] == [0xC0];
    Field(frame, 1, Put32(1));
    Field(frame, 5, [8]);
    Field(frame, 6, dcid);
    Field(frame, 14, [8]);
    Field(frame, 15, scid);
    Field(frame, 23, [t]);
    Field(frame, 24, payload);
    assert frame[..24 + |payload|] == frame[..];
  }

  method WrapShort(t: byte, payload: seq<byte>, dcid: Id8, packetNumber: uint32) returns (frame: array<byte>)
    ensures fresh(frame) && frame[..] == ShortHeader(t, dcid, packetNumber) + payload
  {
    frame := new byte[14 + |payload|];
    frame[0] := 0x40;
    assert frame[..1] == [0x40];
    Field(frame, 1, dcid);
    Field(frame, 9, Put32(packetNumber));
    Field(frame, 13, [t]);
    Field(frame, 14, payload);
    assert frame[..14 + |payload|] == frame[..];
  }

  class Sender {
    const carrier: Carrier
    const connId: uint16
    const ssrc: uint32
    const dcid: Id8
    const scid: Id8
    var counter: uint32

    constructor (carrier: Carrier, connId: uint16, ssrc: uint32, dcid: Id8, scid: Id8, counter: uint32)
      ensures this.carrier == carrier && this.connId == connId && this.ssrc == ssrc
      ensures this.dcid == dcid && this.scid == scid && this.counter == counter
    {
      this.carrier, this.connId, this.ssrc, this.dcid, this.scid := carrier, connId, ssrc, dcid, scid;
      this.counter := counter;
    }

    /**
     The transaction identifier and the timestamp come from the random source and
     the clock. The receiving side gets the packet type and the payload back, and no
     other carrier takes the frame unless it is µTP's at the STUN cookie's instant.
     */
    method Wrap(t: byte, payload: seq<byte>, transaction: TransactionId, timestamp: uint32) returns (frame: array<byte>)
      modifies this`counter
      ensures counter == if carrier == CS2 || (carrier != UTP && t == 4) then old(counter)
                         else (old(counter) as int + 1) % 0x1_0000_0000
      ensures fresh(frame)
      ensures frame[..] == Frame(carrier, Fields(connId, ssrc, dcid, scid, transaction, timestamp, counter), t, payload)
      ensures Unwrap(carrier, frame[..]) == Some((t, payload))
      ensures forall d :: d != carrier ==>
                (Unwrap(d, frame[..]).Some? <==>
                  carrier == UTP && d == WebRTC && t != 4 && timestamp == 0x2112_A442)
    {
      if Counts(carrier, t) {
        counter := (counter as int + 1) % 0x1_0000_0000;
      }
      match carrier {
        case CS2 => frame := WrapCs2(t, payload);
        case UTP => frame := WrapUtp(t, payload, connId, timestamp, counter % 0x1_0000);
        case WebRTC =>
          if t == PKT_HANDSHAKE {
            frame := WrapStun(t, payload, transaction);
          } else {
            frame := WrapRtp(t, payload, counter % 0x1_0000, timestamp, ssrc);
          }
        case QUIC =>
          if t == PKT_HANDSHAKE {
            frame := WrapLong(t, payload, dcid, scid);
          } else {
            frame := WrapShort(t, payload, dcid, counter);
          }
      }
      FrameAccepted(carrier, Fields(connId, ssrc, dcid, scid, transaction, timestamp, counter), t, payload);
    }
  }

  // ----- inversion -----

  lemma HeaderShape(c: Carrier, f: Fields, t: byte, size: nat)
    ensures var h := Header(c, f, t, size);
            match c
            case CS2 => |h| == 9 && h[0] == h[1] == h[2] == h[3] == 0xFF && h[5] == t
            case UTP => |h| == 21 && h[20] == t && h[0] == UtpType(t) * 16 + 1 && h[4..8] == Put32(f.timestamp)
            case WebRTC =>
              if t == PKT_HANDSHAKE then |h| == 21 && h[20] == t && h[0] == 0 && h[4..8] == Put32(STUN_COOKIE)
              else |h| == 13 && h[12] == t && h[0] == 0x80
            case QUIC =>
              if t == PKT_HANDSHAKE then |h| == 24 && h[23] == t && h[0] == 0xC0 && h[1..5] == Put32(1)
              else |h| == 14 && h[13] == t && h[0] == 0x40
  {
  }

  lemma FieldAt(h: seq<byte>, payload: seq<byte>, i: nat, v: uint32)
    requires i + 4 <= |h| && h[i..i + 4] == Put32(v)
    ensures U32At(h + payload, i) == v
  {
    assert (h + payload)[i..i + 4] == Put32(v);
    LongAt(h + payload, i, v);
  }

  /** Each carrier's unwrapping inverts its framing, for every packet type, payload and sender state. */
  lemma UnwrapInvertsWrap(c: Carrier, f: Fields, t: byte, payload: seq<byte>)
    ensures Unwrap(c, Frame(c, f, t, payload)) == Some((t, payload))
  {
    var h := Header(c, f, t, |payload|);
    HeaderShape(c, f, t, |payload|);
    assert (h + payload)[|h|..] == payload;
    if c == WebRTC && t == PKT_HANDSHAKE {
      FieldAt(h, payload, 4, STUN_COOKIE);
    }
    if c == QUIC && t == PKT_HANDSHAKE {
      FieldAt(h, payload, 1, 1);
    }
  }

  /**
   A carrier never accepts a frame of another, but for one case: WebRTC takes a µTP
   frame that is not a handshake when its timestamp happens to be the STUN cookie.
   */
  lemma CarriersKeepApart(c: Carrier, d: Carrier, f: Fields, t: byte, payload: seq<byte>)
    requires c != d
    ensures Unwrap(d, Frame(c, f, t, payload)).Some? <==>
              c == UTP && d == WebRTC && t != 4 && f.timestamp == 0x2112_A442
  {
    var h := Header(c, f, t, |payload|);
    HeaderShape(c, f, t, |payload|);
    assert (h + payload)[0] == h[0];
    if c == UTP {
      FieldAt(h, payload, 4, f.timestamp);
    }
  }

  /** Who accepts a frame: its own carrier, and no other but in the one case. */
  lemma FrameAccepted(c: Carrier, f: Fields, t: byte, payload: seq<byte>)
    ensures Unwrap(c, Frame(c, f, t, payload)) == Some((t, payload))
    ensures forall d :: d != c ==>
              (Unwrap(d, Frame(c, f, t, payload)).Some? <==>
                c == UTP && d == WebRTC && t != PKT_HANDSHAKE && f.timestamp == STUN_COOKIE)
  {
    UnwrapInvertsWrap(c, f, t, payload);
    forall d | d != c ensures Unwrap(d, Frame(c, f, t, payload)).Some? <==>
                                c == UTP && d == WebRTC && t != PKT_HANDSHAKE && f.timestamp == STUN_COOKIE {
      CarriersKeepApart(c, d, f, t, payload);
    }
  }

  // ----- layouts -----

  /** µTP, BEP 29: a SYN for a handshake, a STATE for a keepalive, DATA for the rest, version 1, no extension. */
  lemma UtpLayout(t: byte, connId: uint16, timestamp: uint32, seqNr: uint16)
    ensures var h := UtpHeader(t, connId, timestamp, seqNr);
            && |h| == 21 && h[0] == (if t == 4 then 0x41 else if t == 3 then 0x21 else 0x01) && h[1] == 0
            && U16At(h, 2) == connId && U32At(h, 4) == timestamp && U32At(h, 8) == 0 && U32At(h, 12) == 0x10_0000
            && U16At(h, 16) == seqNr && U16At(h, 18) == 0 && h[20] == t
  {
    var h := UtpHeader(t, connId, timestamp, seqNr);
    assert h[2..4] == Put16(connId) && h[4..8] == Put32(timestamp) && h[8..12] == Put32(0);
    assert h[12..16] == Put32(0x10_0000) && h[16..18] == Put16(seqNr) && h[18..20] == Put16(0);
    WordAt(h, 2, connId);
    LongAt(h, 4, timestamp);
    LongAt(h, 8, 0);
    LongAt(h, 12, 0x10_0000);
    WordAt(h, 16, seqNr);
    WordAt(h, 18, 0);
  }

  /** A STUN binding request (section 6 of RFC 5389) with the packet type behind its header. */
  lemma StunLayout(t: byte, length: uint16, transaction: TransactionId)
    ensures var h := StunHeader(t, length, transaction);
            && |h| == 21 && U16At(h, 0) == 1 && U16At(h, 2) == length && U32At(h, 4) == 0x2112_A442
            && h[8..20] == transaction && h[20] == t
  {
    var h := StunHeader(t, length, transaction);
    assert h[0..2] == Put16(1) && h[2..4] == Put16(length) && h[4..8] == Put32(STUN_COOKIE);
    WordAt(h, 0, 1);
    WordAt(h, 2, length);
    LongAt(h, 4, STUN_COOKIE);
  }

  /** An RTP header (section 5.1 of RFC 3550): version 2, payload type 96. */
  lemma RtpLayout(t: byte, seqNr: uint16, timestamp: uint32, ssrc: uint32)
    ensures var h := RtpHeader(t, seqNr, timestamp, ssrc);
            && |h| == 13 && h[0] == 0x80 && h[1] == 96
            && U16At(h, 2) == seqNr && U32At(h, 4) == timestamp && U32At(h, 8) == ssrc && h[12] == t
  {
    var h := RtpHeader(t, seqNr, timestamp, ssrc);
    assert h[2..4] == Put16(seqNr) && h[4..8] == Put32(timestamp) && h[8..12] == Put32(ssrc);
    WordAt(h, 2, seqNr);
    LongAt(h, 4, timestamp);
    LongAt(h, 8, ssrc);
  }

  /** QUIC version 1 (section 17 of RFC 9000): an Initial for a handshake, a short header for the rest. */
  lemma QuicLayout(t: byte, dcid: Id8, scid: Id8, packetNumber: uint32)
    ensures var h := LongHeader(t, dcid, scid);
            && |h| == 24 && h[0] == 0xC0 && U32At(h, 1) == 1 && h[5] == 8 && h[6..14] == dcid && h[14] == 8
            && h[15..23] == scid && h[23] == t
    ensures var h := ShortHeader(t, dcid, packetNumber);
            |h| == 14 && h[0] == 0x40 && h[1..9] == dcid && U32At(h, 9) == packetNumber && h[13] == t
  {
    assert LongHeader(t, dcid, scid)[1..5] == Put32(1);
    LongAt(LongHeader(t, dcid, scid), 1, 1);
    assert ShortHeader(t, dcid, packetNumber)[9..13] == Put32(packetNumber);
    LongAt(ShortHeader(t, dcid, packetNumber), 9, packetNumber);
  }

  /** Which header goes with which carrier and packet type, and the legacy one byte by byte. */
  lemma HeaderExact(c: Carrier, f: Fields, t: byte, size: nat)
    ensures Header(c, f, t, size) ==
              match c
              case CS2 => [0xFF, 0xFF, 0xFF, 0xFF, 0x41, t, 0, 0, 0]
              case UTP => UtpHeader(t, f.connId, f.timestamp, f.counter % 0x1_0000)
              case WebRTC =>
                if t == 4 then StunHeader(t, (1 + size) % 0x1_0000, f.transaction)
                else RtpHeader(t, f.counter % 0x1_0000, f.timestamp, f.ssrc)
              case QUIC => if t == 4 then LongHeader(t, f.dcid, f.scid) else ShortHeader(t, f.dcid, f.counter)
  {
  }

  /** The datagram is a header of that length, the packet type in its last byte, with the payload behind it. */
  predicate BehindHeader(raw: seq<byte>, length: nat, t: byte, payload: seq<byte>) {
    0 < length <= |raw| && raw[length - 1] == t && raw[length..] == payload
  }

  /** What each carrier takes for a frame, on arbitrary bytes. */
  lemma UnwrapExact(raw: seq<byte>, t: byte, payload: seq<byte>)
    ensures Unwrap(CS2, raw) == Some((t, payload)) <==>
              |raw| >= 9 && raw[..4] == [0xFF, 0xFF, 0xFF, 0xFF] && raw[5] == t && raw[9..] == payload
    ensures Unwrap(UTP, raw) == Some((t, payload)) <==> BehindHeader(raw, 21, t, payload) && raw[0] % 16 == 1
    ensures Unwrap(WebRTC, raw) == Some((t, payload)) <==>
              || (BehindHeader(raw, 13, t, payload) && raw[0] == 0x80)
              || (BehindHeader(raw, 21, t, payload) && raw[0] < 0x40 && U32At(raw, 4) == 0x2112_A442)
    ensures Unwrap(QUIC, raw) == Some((t, payload)) <==>
              || (BehindHeader(raw, 24, t, payload) && raw[0] == 0xC0 && U32At(raw, 1) == 1)
              || (BehindHeader(raw, 14, t, payload) && raw[0] == 0x40)
  {
    if |raw| >= 4 {
      assert raw[..4] == [raw[0], raw[1], raw[2], raw[3]];
    }
  }
}
