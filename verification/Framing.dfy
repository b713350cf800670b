/**
 The framing of the control stream (master/control/slavecontrol.go:33-42, 278-292)
 and of the data-plane datagrams (master/dataplane/dataplane.go:78-149).
 */
module Framing {
  import opened Wrappers
  import opened Bytes

  const FRAME_HEAD := 3

  // ----- the control stream -----

  datatype ControlFrame = ControlFrame(msgType: byte, payload: seq<byte>)

  /** As written: the length field keeps the low 16 bits only. */
  function Framed(f: ControlFrame): seq<byte> {
    [f.msgType] + Put16(|f.payload| % 0x1_0000) + f.payload
  }

  method WriteFrame(f: ControlFrame) returns (frame: array<byte>)
    ensures fresh(frame) && frame[..] == Framed(f)
  {
    frame := new byte[FRAME_HEAD + |f.payload|];
    frame[0] := f.msgType;
    Copy(frame, 1, Put16(|f.payload| % 0x1_0000));
    Copy(frame, 3, f.payload);
    assert frame[..3] == [f.msgType] + Put16(|f.payload| % 0x1_0000);
    assert frame[..] == frame[..3] + f.payload;
  }

  /** The first frame on a stream and what follows it; nothing if the stream ends before. */
  function ReadFrame(stream: seq<byte>): (r: Option<(ControlFrame, seq<byte>)>)
    ensures r.Some? ==> |r.value.1| < |stream|
  {
    if |stream| < FRAME_HEAD || FRAME_HEAD + U16At(stream, 1) > |stream| then None
    else
      var end := FRAME_HEAD + U16At(stream, 1);
      Some((ControlFrame(stream[0], stream[FRAME_HEAD..end]), stream[end..]))
  }

  /** The frames that a reader gets until the stream ends. */
  function ReadAll(stream: seq<byte>): seq<ControlFrame>
    decreases |stream|
  {
    match ReadFrame(stream)
    case None => []
    case Some((f, rest)) => [f] + ReadAll(rest)
  }

  function Stream(fs: seq<ControlFrame>): seq<byte> {
    if fs == [] then [] else Framed(fs[0]) + Stream(fs[1..])
  }

  predicate Fits(f: ControlFrame) {
    |f.payload| < 0x1_0000
  }

  ghost predicate AllFit(fs: seq<ControlFrame>) {
    forall i :: 0 <= i < |fs| ==> Fits(fs[i])
  }

  lemma ReadsFramed(f: ControlFrame, rest: seq<byte>)
    requires Fits(f)
    ensures ReadFrame(Framed(f) + rest) == Some((f, rest))
  {
    var s := Framed(f) + rest;
    var end := FRAME_HEAD + |f.payload|;
    assert s[1] == Put16(|f.payload|)[0] && s[2] == Put16(|f.payload|)[1];
    assert s[FRAME_HEAD..end] == f.payload && s[end..] == rest;
  }

  /** What is read off a stream is a frame as it is written, and everything behind it. */
  lemma ReadFrameExact(stream: seq<byte>, f: ControlFrame, rest: seq<byte>)
    ensures ReadFrame(stream) == Some((f, rest)) <==>
              |f.payload| < 0x1_0000 && stream == [f.msgType] + Put16(|f.payload|) + f.payload + rest
  {
    if ReadFrame(stream) == Some((f, rest)) {
      assert stream == [stream[0]] + [stream[1], stream[2]] + stream[3..3 + |f.payload|] + stream[3 + |f.payload|..];
    } else if |f.payload| < 0x1_0000 && stream == [f.msgType] + Put16(|f.payload|) + f.payload + rest {
      ReadsFramed(f, rest);
    }
  }

  /** A frame reads back as itself exactly when its payload fits the length field. */
  lemma FrameRoundTripExact(f: ControlFrame)
    ensures ReadFrame(Framed(f)) == Some((f, [])) <==> Fits(f)
  {
    if Fits(f) {
      ReadsFramed(f, []);
      assert Framed(f) + [] == Framed(f);
    }
  }

  /** How many frames lie entirely within the first `k` bytes. */
  function Whole(fs: seq<ControlFrame>, k: nat): nat
    decreases |fs|
  {
    if fs == [] || |Framed(fs[0])| > k then 0 else 1 + Whole(fs[1..], k - |Framed(fs[0])|)
  }

  lemma {:induction false} WholeExact(fs: seq<ControlFrame>, k: nat)
    ensures Whole(fs, k) <= |fs| && |Stream(fs[..Whole(fs, k)])| <= k
    ensures Whole(fs, k) < |fs| ==> |Stream(fs[..Whole(fs, k) + 1])| > k
    decreases |fs|
  {
    if fs != [] && |Framed(fs[0])| <= k {
      var n := Whole(fs, k);
      WholeExact(fs[1..], k - |Framed(fs[0])|);
      assert fs[..n][1..] == fs[1..][..n - 1];
      if n < |fs| {
        assert fs[..n + 1][1..] == fs[1..][..n];
      }
    } else if fs != [] {
      assert fs[..0] == [] && fs[..1] == [fs[0]];
    }
  }

  lemma CutWithinFirst(f: ControlFrame, rest: seq<byte>, k: nat)
    requires Fits(f) && k < |Framed(f)|
    ensures k <= |Framed(f) + rest| && ReadFrame((Framed(f) + rest)[..k]) == None
  {
    var s := (Framed(f) + rest)[..k];
    if k >= FRAME_HEAD {
      assert s[1] == Put16(|f.payload|)[0] && s[2] == Put16(|f.payload|)[1];
    }
  }

  lemma CutBehind(head: seq<byte>, rest: seq<byte>, k: nat)
    requires |head| <= k <= |head + rest|
    ensures (head + rest)[..k] == head + rest[..k - |head|]
  {
  }

  lemma TakeOneMore(fs: seq<ControlFrame>, n: nat)
    requires n < |fs|
    ensures fs[..n + 1] == [fs[0]] + fs[1..][..n]
  {
  }

  /** A stream cut anywhere reads back as exactly the frames that are complete in it. */
  lemma {:induction false} CutStreamReads(fs: seq<ControlFrame>, k: nat)
    requires AllFit(fs) && k <= |Stream(fs)|
    ensures Whole(fs, k) <= |fs| && ReadAll(Stream(fs)[..k]) == fs[..Whole(fs, k)]
    decreases |fs|
  {
    if fs == [] {
    } else if |Framed(fs[0])| > k {
      CutWithinFirst(fs[0], Stream(fs[1..]), k);
    } else {
      var head, rest := Framed(fs[0]), Stream(fs[1..]);
      CutStreamReads(fs[1..], k - |head|);
      CutBehind(head, rest, k);
      ReadsFramed(fs[0], rest[..k - |head|]);
      TakeOneMore(fs, Whole(fs[1..], k - |head|));
    }
  }

  /** Any sequence of frames whose payloads fit reads back as itself. */
  lemma StreamReads(fs: seq<ControlFrame>)
    requires AllFit(fs)
    ensures ReadAll(Stream(fs)) == fs
  {
    CutStreamReads(fs, |Stream(fs)|);
    assert Stream(fs)[..|Stream(fs)|] == Stream(fs);
    WholeOfAll(fs);
    assert fs[..|fs|] == fs;
  }

  lemma {:induction false} WholeOfAll(fs: seq<ControlFrame>)
    ensures Whole(fs, |Stream(fs)|) == |fs|
    decreases |fs|
  {
    if fs != [] {
      WholeOfAll(fs[1..]);
    }
  }

  // ----- data-plane datagrams -----

  const MSG_UPLINK: byte := 0xDB
  const READ_BUFFER := 65535

  /** As sent: type, low 16 bits of the length, sealed bytes. */
  function Datagram(msgType: byte, sealed: seq<byte>): seq<byte> {
    [msgType] + Put16(|sealed| % 0x1_0000) + sealed
  }

  /** A datagram as it lands in the read buffer, which drops what does not fit. */
  function Received(datagram: seq<byte>): seq<byte> {
    if |datagram| > READ_BUFFER then datagram[..READ_BUFFER] else datagram
  }

  /**
   The sealed bytes the read loop takes from its buffer, of which `n` bytes are
   filled. The end of the slice is computed in 16 bits, so it could wrap.
   */
  function Extracted(msgType: byte, buf: seq<byte>, n: nat): Option<seq<byte>>
    requires n <= |buf| <= READ_BUFFER
  {
    if n < FRAME_HEAD || buf[0] != msgType || U16At(buf, 1) > n - FRAME_HEAD then None
    else
      GuardedEnd(U16At(buf, 1), n);
      var end := (FRAME_HEAD + U16At(buf, 1)) % 0x1_0000;
      Some(buf[FRAME_HEAD..end])
  }

  /** Behind the guard the 16-bit sum does not wrap and stays within the datagram. */
  lemma GuardedEnd(length: uint16, n: nat)
    requires length <= n - FRAME_HEAD && n <= READ_BUFFER
    ensures (FRAME_HEAD + length) % 0x1_0000 == FRAME_HEAD + length <= n
  {
  }

  /**
   Which bytes are taken: those behind the header, as many as the length field says,
   of a datagram of the right type that has them all; and none otherwise.
   */
  lemma ExtractedExact(msgType: byte, buf: seq<byte>, n: nat, sealed: seq<byte>)
    requires n <= |buf| <= READ_BUFFER
    ensures Extracted(msgType, buf, n) == Some(sealed) <==>
              n >= 3 && 3 + |sealed| <= n && buf[..3 + |sealed|] == [msgType] + Put16(|sealed|) + sealed
  {
    if 3 + |sealed| <= n {
      assert buf[..3 + |sealed|] == [buf[0]] + [buf[1], buf[2]] + buf[3..3 + |sealed|];
      assert |sealed| < 0x1_0000;
      if buf[..3 + |sealed|] == [msgType] + Put16(|sealed|) + sealed {
        var whole := [msgType] + Put16(|sealed|) + sealed;
        assert whole[0] == msgType && whole[1] == Put16(|sealed|)[0] && whole[2] == Put16(|sealed|)[1];
        assert whole[3..] == sealed && buf[..3 + |sealed|][3..] == buf[3..3 + |sealed|];
      }
    }
  }

  /** The receiver gets the sealed bytes back exactly when they leave room for the header in its buffer. */
  lemma DatagramRoundTripExact(msgType: byte, sealed: seq<byte>)
    ensures var d := Received(Datagram(msgType, sealed));
            Extracted(msgType, d, |d|) == Some(sealed) <==> |sealed| <= READ_BUFFER - FRAME_HEAD
  {
    var full, d := Datagram(msgType, sealed), Received(Datagram(msgType, sealed));
    if |sealed| <= READ_BUFFER - FRAME_HEAD {
      assert d[..3 + |sealed|] == full;
    }
    ExtractedExact(msgType, d, |d|, sealed);
  }

  /** What a slave seals for the master: the tunnel address, then the client's bytes. */
  function Inner(tunnelIP: uint32, clientBytes: seq<byte>): seq<byte> {
    Put32(tunnelIP) + clientBytes
  }

  function SplitInner(plain: seq<byte>): Option<(uint32, seq<byte>)> {
    if |plain| < 4 then None else Some((U32At(plain, 0), plain[4..]))
  }

  lemma InnerRoundTrip(tunnelIP: uint32, clientBytes: seq<byte>)
    ensures SplitInner(Inner(tunnelIP, clientBytes)) == Some((tunnelIP, clientBytes))
  {
    var p := Inner(tunnelIP, clientBytes);
    assert p[..4] == Put32(tunnelIP) && p[4..] == clientBytes;
    U32AtOfPut32(tunnelIP);
  }

  method BuildDatagram(msgType: byte, sealed: seq<byte>) returns (frame: array<byte>)
    ensures fresh(frame) && frame[..] == Datagram(msgType, sealed)
  {
    frame := new byte[FRAME_HEAD + |sealed|];
    frame[0] := msgType;
    Copy(frame, 1, Put16(|sealed| % 0x1_0000));
    Copy(frame, 3, sealed);
    assert frame[..3] == [msgType] + Put16(|sealed| % 0x1_0000);
    assert frame[..] == frame[..3] + sealed;
  }

  /**
   The relay end to end, for any cipher that opens what it seals: what the slave
   builds for a client's packet, the master takes apart into the same tunnel address
   and bytes, whenever the sealed form leaves room for the header.
   */
  lemma UplinkRelayed(
    seal: seq<byte> -> seq<byte>, open: seq<byte> -> Option<seq<byte>>, tunnelIP: uint32, clientBytes: seq<byte>)
    requires forall p :: open(seal(p)) == Some(p)
    ensures var sealed := seal(Inner(tunnelIP, clientBytes));
            var d := Received(Datagram(MSG_UPLINK, sealed));
            |sealed| <= READ_BUFFER - FRAME_HEAD ==>
              var ct := Extracted(0xDB, d, |d|);
              ct.Some? && open(ct.value).Some? && SplitInner(open(ct.value).value) == Some((tunnelIP, clientBytes))
  {
    DatagramRoundTripExact(MSG_UPLINK, seal(Inner(tunnelIP, clientBytes)));
    InnerRoundTrip(tunnelIP, clientBytes);
  }
}
