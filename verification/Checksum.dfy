/** The IPv4 header checksum of the data-path test tool (tools/datapathtest/main.go:264-291). */
module Checksum {
  import opened Bytes
  import opened Crypto
  import opened Lifecycle

  const ALL_ONES := 0xFFFF

  /** The sum of the first `n` big-endian words. */
  function WordSum(b: seq<byte>, n: nat): nat
    requires 2 * n <= |b|
  {
    if n == 0 then 0 else WordSum(b, n - 1) + U16At(b, 2 * n - 2)
  }

  /** The carry added back in once. */
  function Refold(s: nat): nat {
    s % 0x1_0000 + s / 0x1_0000
  }

  /** Carries added back in until 16 bits are left. */
  function Fold(s: nat): nat
    decreases s
  {
    if s < 0x1_0000 then s else Fold(Refold(s))
  }

  lemma AddMultiple(x: nat, h: nat)
    ensures (x + ALL_ONES * h) % ALL_ONES == x % ALL_ONES
  {
    var q, r := x / ALL_ONES, x % ALL_ONES;
    assert x + ALL_ONES * h == ALL_ONES * (q + h) + r;
  }

  /** Folding keeps the residue modulo 65535 and gives zero for zero only. */
  lemma {:induction false} FoldResidue(s: nat)
    ensures Fold(s) <= ALL_ONES && Fold(s) % ALL_ONES == s % ALL_ONES && (Fold(s) == 0 <==> s == 0)
    decreases s
  {
    if s >= 0x1_0000 {
      var h := s / 0x1_0000;
      assert s == Refold(s) + ALL_ONES * h;
      AddMultiple(Refold(s), h);
      FoldResidue(Refold(s));
    }
  }

  /** A sum and the complement of its fold together fold to all ones. */
  lemma ComplementFolds(s: nat)
    requires s > 0
    ensures 0 <= ALL_ONES - Fold(s) && Fold(s + (ALL_ONES - Fold(s))) == ALL_ONES
  {
    FoldResidue(s);
    var f := Fold(s);
    var t := s + (ALL_ONES - f);
    FoldResidue(t);
    SameResidue(s, f);
  }

  lemma SameResidue(s: nat, f: nat)
    requires s % ALL_ONES == f % ALL_ONES
    ensures (s + (ALL_ONES - f)) % ALL_ONES == 0
  {
    var k := s / ALL_ONES - f / ALL_ONES + 1;
    assert s + (ALL_ONES - f) == ALL_ONES * k;
  }

  /** The first loop of `ipck`: a 32-bit sum, an odd last byte left out. */
  method SumWords(b: seq<byte>) returns (s: nat)
    ensures s == WordSum(b, |b| / 2) % 0x1_0000_0000
  {
    s := 0;
    var i: nat := 0;
    ghost var n: nat := 0;
    while i + 1 < |b|
      invariant i == 2 * n <= |b| && s == WordSum(b, n) % 0x1_0000_0000
    {
      s := (s + U16At(b, i)) % 0x1_0000_0000;
      i := i + 2;
      n := n + 1;
    }
    assert n == |b| / 2;
  }

  /** The second: its carries folded in. */
  method FoldCarries(sum: nat) returns (s: nat)
    ensures s == Fold(sum) < 0x1_0000
  {
    s := sum;
    while s / 0x1_0000 != 0
      invariant Fold(s) == Fold(sum)
      decreases s
    {
      s := s % 0x1_0000 + s / 0x1_0000;
    }
  }

  method Ipck(b: seq<byte>) returns (r: uint16)
    ensures Fold(WordSum(b, |b| / 2) % 0x1_0000_0000) <= ALL_ONES
    ensures r == ALL_ONES - Fold(WordSum(b, |b| / 2) % 0x1_0000_0000)
  {
    var s := SumWords(b);
    s := FoldCarries(s);
    return ALL_ONES - s;
  }

  // ----- packets -----

  /** An IPv4 header without options, for UDP, with the given checksum. */
  function IpHeader(total: uint16, checksum: uint16, src: IPv4, dst: IPv4): seq<byte> {
    [0x45, 0] + Put16(total) + [0, 0, 0, 0, 64, 17] + Put16(checksum) + Put32(src) + Put32(dst)
  }

  lemma {:induction false} ChecksumAddsUp(total: uint16, checksum: uint16, src: IPv4, dst: IPv4, n: nat)
    requires n <= 10
    ensures |IpHeader(total, checksum, src, dst)| == |IpHeader(total, 0, src, dst)| == 20
    ensures WordSum(IpHeader(total, checksum, src, dst), n)
         == WordSum(IpHeader(total, 0, src, dst), n) + (if n > 5 then checksum else 0)
  {
    if n > 0 {
      ChecksumAddsUp(total, checksum, src, dst, n - 1);
      ChecksumWord(total, checksum, src, dst, n - 1);
    }
  }

  /** Only the sixth word of the header depends on the checksum. */
  lemma ChecksumWord(total: uint16, checksum: uint16, src: IPv4, dst: IPv4, k: nat)
    requires k < 10
    ensures |IpHeader(total, checksum, src, dst)| == |IpHeader(total, 0, src, dst)| == 20
    ensures U16At(IpHeader(total, checksum, src, dst), 2 * k)
         == U16At(IpHeader(total, 0, src, dst), 2 * k) + (if k == 5 then checksum else 0)
  {
  }

  lemma {:induction false} WordSumBounds(b: seq<byte>, n: nat)
    requires 2 * n <= |b|
    ensures WordSum(b, n) <= n * ALL_ONES
    ensures n > 0 ==> WordSum(b, n) >= U16At(b, 0)
  {
    if n > 1 {
      WordSumBounds(b, n - 1);
    }
  }

  /** With the checksum in place the ten words of every header fold to all ones. */
  lemma HeaderFolds(total: uint16, src: IPv4, dst: IPv4)
    ensures |IpHeader(total, 0, src, dst)| == 20 && Fold(WordSum(IpHeader(total, 0, src, dst), 10)) <= ALL_ONES
    ensures var ck := ALL_ONES - Fold(WordSum(IpHeader(total, 0, src, dst), 10));
            Fold(WordSum(IpHeader(total, ck, src, dst), 10)) == ALL_ONES
  {
    var z := IpHeader(total, 0, src, dst);
    WordSumBounds(z, 10);
    assert U16At(z, 0) == 0x4500;
    ComplementFolds(WordSum(z, 10));
    ChecksumAddsUp(total, ALL_ONES - Fold(WordSum(z, 10)), src, dst, 10);
  }

  function UdpHeader(sp: uint16, dp: uint16, length: uint16): seq<byte> {
    Put16(sp) + Put16(dp) + Put16(length) + [0, 0]
  }

  method Assemble(header: seq<byte>, udp: seq<byte>, payload: seq<byte>) returns (pkt: array<byte>)
    ensures fresh(pkt) && pkt[..] == header + udp + payload
  {
    pkt := new byte[|header| + |udp| + |payload|];
    Copy(pkt, 0, header);
    Copy(pkt, |header|, udp);
    assert pkt[..|header| + |udp|] == header + udp;
    Copy(pkt, |header| + |udp|, payload);
    assert pkt[..] == pkt[..|header| + |udp|] + payload;
  }

  lemma HeaderFields(total: uint16, checksum: uint16, src: IPv4, dst: IPv4)
    ensures var h := IpHeader(total, checksum, src, dst);
            |h| == 20 && h[0] == 0x45 && h[12..16] == Put32(src) && h[16..20] == Put32(dst)
  {
  }

  lemma PacketFields(header: seq<byte>, udp: seq<byte>, payload: seq<byte>, src: IPv4)
    requires |header| == 20 && |udp| == 8 && header[0] == 0x45 && header[12..16] == Put32(src)
    ensures var p := header + udp + payload;
            && SrcMatchesTunnel(p, src) && p[..20] == header && p[16..20] == header[16..20]
            && p[20..28] == udp && p[28..] == payload
  {
    var p := header + udp + payload;
    assert p == header + (udp + payload);
    assert p[12..16] == header[12..16];
  }

  /** Ten words do not overflow the 32-bit sum. */
  lemma SmallSum(b: seq<byte>)
    requires |b| == 20
    ensures WordSum(b, |b| / 2) % 0x1_0000_0000 == WordSum(b, 10)
  {
    WordSumBounds(b, 10);
  }

  method HeaderChecksum(total: uint16, src: IPv4, dst: IPv4) returns (ck: uint16)
    ensures |IpHeader(total, ck, src, dst)| == 20 && Fold(WordSum(IpHeader(total, ck, src, dst), 10)) == ALL_ONES
  {
    HeaderFolds(total, src, dst);
    SmallSum(IpHeader(total, 0, src, dst));
    ck := Ipck(IpHeader(total, 0, src, dst));
  }

  /**
   Every packet built has a header that folds to all ones, passes the master's
   reverse-path filter for its source address, and carries the payload.
   */
  method BuildUdpIp(src: IPv4, dst: IPv4, sp: uint16, dp: uint16, payload: seq<byte>) returns (pkt: array<byte>)
    ensures fresh(pkt) && pkt.Length == 28 + |payload|
    ensures Fold(WordSum(pkt[..][..20], 10)) == ALL_ONES
    ensures SrcMatchesTunnel(pkt[..], src) && pkt[..][28..] == payload
    ensures IsUdpPacket(pkt[..], src, dst, sp, dp)
  {
    var total := (28 + |payload|) % 0x1_0000;
    var ck := HeaderChecksum(total, src, dst);
    var udp := UdpHeader(sp, dp, (8 + |payload|) % 0x1_0000);
    BuiltFields(total, ck, src, dst, udp, payload);
    BuiltLayout(ck, src, dst, sp, dp, payload);
    pkt := Assemble(IpHeader(total, ck, src, dst), udp, payload);
    assert pkt.Length == |pkt[..]|;
  }

  /**
   A UDP datagram over IPv4 without options (section 3.1 of RFC 791, RFC 768): its
   lengths cut to 16 bits, never fragmented, 64 hops to live, the UDP checksum not
   used.
   */
  predicate IsUdpPacket(p: seq<byte>, src: IPv4, dst: IPv4, sp: uint16, dp: uint16) {
    && |p| >= 28
    && p[0] == 0x45 && p[1] == 0 && U16At(p, 2) == |p| % 0x1_0000
    && U32At(p, 4) == 0 && p[8] == 64 && p[9] == 17
    && U32At(p, 12) == src && U32At(p, 16) == dst
    && U16At(p, 20) == sp && U16At(p, 22) == dp && U16At(p, 24) == (|p| - 20) % 0x1_0000 && U16At(p, 26) == 0
  }

  lemma IpLayout(total: uint16, checksum: uint16, src: IPv4, dst: IPv4)
    ensures var h := IpHeader(total, checksum, src, dst);
            && |h| == 20 && h[0] == 0x45 && h[1] == 0 && h[2..4] == Put16(total)
            && h[4..8] == [0, 0, 0, 0] && h[8] == 64 && h[9] == 17
            && h[12..16] == Put32(src) && h[16..20] == Put32(dst)
  {
  }

  lemma UdpLayout(sp: uint16, dp: uint16, length: uint16)
    ensures var u := UdpHeader(sp, dp, length);
            |u| == 8 && u[0..2] == Put16(sp) && u[2..4] == Put16(dp) && u[4..6] == Put16(length) && u[6..8] == [0, 0]
  {
  }

  /** A slice of a part is the slice of the whole, moved. */
  lemma PartSlice(a: seq<byte>, b: seq<byte>, c: seq<byte>, lo: nat, hi: nat)
    requires lo <= hi <= |b|
    ensures (a + b + c)[|a| + lo..|a| + hi] == b[lo..hi]
  {
  }

  lemma BuiltLayout(checksum: uint16, src: IPv4, dst: IPv4, sp: uint16, dp: uint16, payload: seq<byte>)
    ensures var header := IpHeader((28 + |payload|) % 0x1_0000, checksum, src, dst);
            var udp := UdpHeader(sp, dp, (8 + |payload|) % 0x1_0000);
            IsUdpPacket(header + udp + payload, src, dst, sp, dp)
  {
    var total, length := (28 + |payload|) % 0x1_0000, (8 + |payload|) % 0x1_0000;
    IpLayout(total, checksum, src, dst);
    UdpLayout(sp, dp, length);
    PlacedLayout(IpHeader(total, checksum, src, dst), UdpHeader(sp, dp, length), payload, src, dst, sp, dp);
  }

  lemma PlacedLayout(
    h: seq<byte>, u: seq<byte>, payload: seq<byte>, src: IPv4, dst: IPv4, sp: uint16, dp: uint16)
    requires |h| == 20 && h[0] == 0x45 && h[1] == 0 && h[2..4] == Put16((28 + |payload|) % 0x1_0000)
    requires h[4..8] == [0, 0, 0, 0] && h[8] == 64 && h[9] == 17 && h[12..16] == Put32(src) && h[16..20] == Put32(dst)
    requires |u| == 8 && u[0..2] == Put16(sp) && u[2..4] == Put16(dp)
    requires u[4..6] == Put16((8 + |payload|) % 0x1_0000) && u[6..8] == [0, 0]
    ensures IsUdpPacket(h + u + payload, src, dst, sp, dp)
  {
    var p := h + u + payload;
    HeaderPlaced(h, u + payload, src, dst);
    assert h + (u + payload) == p;
    PartSlice(h, u, payload, 0, 2);
    PartSlice(h, u, payload, 2, 4);
    PartSlice(h, u, payload, 4, 6);
    PartSlice(h, u, payload, 6, 8);
    WordAt(p, 20, sp);
    WordAt(p, 22, dp);
    WordAt(p, 24, (8 + |payload|) % 0x1_0000);
    WordAt(p, 26, 0);
  }

  lemma HeaderPlaced(h: seq<byte>, rest: seq<byte>, src: IPv4, dst: IPv4)
    requires |h| == 20 && h[2..4] == Put16((20 + |rest|) % 0x1_0000)
    requires h[4..8] == [0, 0, 0, 0] && h[12..16] == Put32(src) && h[16..20] == Put32(dst)
    ensures var p := h + rest;
            && U16At(p, 2) == |p| % 0x1_0000 && U32At(p, 4) == 0 && U32At(p, 12) == src && U32At(p, 16) == dst
            && p[0] == h[0] && p[1] == h[1] && p[8] == h[8] && p[9] == h[9]
  {
    var p := h + rest;
    assert p[2..4] == h[2..4] && p[4..8] == h[4..8] && p[12..16] == h[12..16] && p[16..20] == h[16..20];
    WordAt(p, 2, |p| % 0x1_0000);
    LongAt(p, 4, 0);
    LongAt(p, 12, src);
    LongAt(p, 16, dst);
  }

  lemma BuiltFields(total: uint16, checksum: uint16, src: IPv4, dst: IPv4, udp: seq<byte>, payload: seq<byte>)
    requires |udp| == 8
    ensures var header := IpHeader(total, checksum, src, dst);
            var p := header + udp + payload;
            && |p| == 28 + |payload| && SrcMatchesTunnel(p, src) && p[..20] == header && p[16..20] == Put32(dst)
            && p[20..28] == udp && p[28..] == payload
  {
    HeaderFields(total, checksum, src, dst);
    PacketFields(IpHeader(total, checksum, src, dst), udp, payload, src);
  }
}
