/** Enumerating the address pool (master/session/session.go:218-286). */
module Subnet {
  import opened Wrappers
  import opened Bytes
  import opened Crypto
  import opened Lifecycle

  const MAX_POOL_SIZE := 0x1_0000

  /** The big-endian value of a byte string. */
  function Value(s: seq<byte>): nat {
    if s == [] then 0 else Value(s[..|s| - 1]) * 0x100 + s[|s| - 1]
  }

  function Power256(n: nat): (p: nat)
    ensures p > 0
  {
    if n == 0 then 1 else 0x100 * Power256(n - 1)
  }

  lemma {:induction false} ValueBelow(s: seq<byte>)
    ensures Value(s) < Power256(|s|)
  {
    if s != [] {
      ValueBelow(s[..|s| - 1]);
    }
  }

  /** One more in the last byte, carried over to the left out of bytes that are full. */
  function Carried(s: seq<byte>): seq<byte> {
    if s == [] then []
    else if s[|s| - 1] < 0xFF then s[..|s| - 1] + [s[|s| - 1] + 1]
    else Carried(s[..|s| - 1]) + [0]
  }

  lemma {:induction false} CarriedIsSuccessor(s: seq<byte>)
    ensures |Carried(s)| == |s|
    ensures Value(Carried(s)) == if Value(s) + 1 == Power256(|s|) then 0 else Value(s) + 1
  {
    if s != [] {
      var init, last := s[..|s| - 1], s[|s| - 1];
      ValueBelow(init);
      CarriedIsSuccessor(init);
      if last < 0xFF {
        assert Carried(s)[..|s| - 1] == init;
      } else {
        assert Carried(s)[..|s| - 1] == Carried(init);
      }
    }
  }

  /** The carry loop adds one, modulo 256 to the length. */
  method IncrementIP(ip: array<byte>)
    modifies ip
    ensures ip[..] == Carried(old(ip[..]))
  {
    ghost var was := ip[..];
    var i := ip.Length - 1;
    while i >= 0
      invariant -1 <= i < ip.Length == |was|
      invariant forall k :: 0 <= k <= i ==> ip[k] == was[k]
      invariant forall k :: i < k < ip.Length ==> was[k] == 0xFF && ip[k] == 0
    {
      ip[i] := (ip[i] as int + 1) % 0x100;
      if ip[i] != 0 {
        break;
      }
      i := i - 1;
    }
    CarriedAt(was, i);
  }

  /** Byte by byte, when the carry stops at `i`, or runs out if `i` is -1. */
  lemma {:induction false} CarriedAt(s: seq<byte>, i: int)
    requires -1 <= i < |s| && (i >= 0 ==> s[i] < 0xFF) && forall k :: i < k < |s| ==> s[k] == 0xFF
    ensures |Carried(s)| == |s|
    ensures forall k :: 0 <= k < |s| ==> Carried(s)[k] == if k < i then s[k] else if k == i then s[k] + 1 else 0
  {
    if i < |s| - 1 {
      CarriedAt(s[..|s| - 1], i);
    }
  }

  lemma ValueOfFour(s: seq<byte>)
    requires |s| == 4
    ensures Value(s) == U32At(s, 0) && Power256(4) == 0x1_0000_0000
  {
    assert s[..3][..2] == s[..2] && s[..2][..1] == s[..1] && s[..1][..0] == [];
    assert Power256(2) == 0x100 * Power256(1) && Power256(3) == 0x100 * Power256(2);
    var a: int, b: int, c: int, d: int := s[0], s[1], s[2], s[3];
    assert Value(s[..1]) == a;
    assert Value(s[..2]) == a * 0x100 + b;
    assert Value(s[..3]) == (a * 0x100 + b) * 0x100 + c;
  }

  /** On four bytes: plus one modulo 2^32. */
  lemma IncrementsAddress(s: seq<byte>)
    requires |s| == 4
    ensures |Carried(s)| == 4 && U32At(Carried(s), 0) == (U32At(s, 0) as int + 1) % 0x1_0000_0000
  {
    CarriedIsSuccessor(s);
    ValueOfFour(s);
    ValueOfFour(Carried(s));
  }

  // ----- the subnet -----

  function Power2(n: nat): (p: nat)
    ensures p > 0
  {
    if n == 0 then 1 else 2 * Power2(n - 1)
  }

  /** `x` without its low `n` bits. */
  function HighBits(x: nat, n: nat): nat
    decreases n
  {
    if n == 0 then x else HighBits(x / 2, n - 1)
  }

  /** `q` with `n` zero bits appended. */
  function Shifted(q: nat, n: nat): nat {
    if n == 0 then q else 2 * Shifted(q, n - 1)
  }

  /** The numbers with the same high bits are a block of `Power2(n)`. */
  lemma {:induction false} HighBitsBlock(x: nat, q: nat, n: nat)
    ensures HighBits(x, n) == q <==> Shifted(q, n) <= x < Shifted(q, n) + Power2(n)
    decreases n
  {
    if n > 0 {
      HighBitsBlock(x / 2, q, n - 1);
    }
  }

  /** Such a block never reaches beyond a larger power of two. */
  lemma {:induction false} BlockFits(x: nat, n: nat, p: nat)
    requires x < Power2(n + p)
    ensures Shifted(HighBits(x, n), n) + Power2(n) <= Power2(n + p)
    decreases n
  {
    if n > 0 {
      assert Power2(n + p) == 2 * Power2(n - 1 + p);
      BlockFits(x / 2, n - 1, p);
    }
  }

  lemma Power2Of32()
    ensures Power2(32) == 0x1_0000_0000
  {
    assert Power2(8) == 0x100;
    assert Power2(16) == 0x1_0000;
    assert Power2(24) == 0x100_0000;
  }

  /** The IPv4 network of the given prefix length around an address. */
  datatype Net = Net(address: IPv4, prefix: nat)
  {
    predicate Valid() {
      prefix <= 32
    }

    function Size(): (size: nat)
      requires Valid()
      ensures size > 0
    {
      Power2(32 - prefix)
    }

    /** The address with the host bits cleared. */
    function First(): nat
      requires Valid()
    {
      Shifted(HighBits(address, 32 - prefix), 32 - prefix)
    }

    /** The address with the host bits set. */
    function Broadcast(): nat
      requires Valid()
    {
      First() + Size() - 1
    }

    /** The masked bits are the network's. */
    predicate Contains(ip: IPv4)
      requires Valid()
    {
      HighBits(ip, 32 - prefix) == HighBits(address, 32 - prefix)
    }

    predicate Skips(gateway: Option<IPv4>, ip: nat)
      requires Valid()
    {
      ip == First() || gateway == Some(ip) || ip == Broadcast()
    }
  }

  lemma NetIsRange(n: Net)
    requires n.Valid()
    ensures n.First() + n.Size() <= 0x1_0000_0000
    ensures forall ip: IPv4 :: n.Contains(ip) <==> n.First() <= ip < n.First() + n.Size()
  {
    var host := 32 - n.prefix;
    Power2Of32();
    BlockFits(n.address, host, n.prefix);
    forall ip: IPv4 ensures n.Contains(ip) <==> n.First() <= ip < n.First() + n.Size() {
      HighBitsBlock(ip, HighBits(n.address, host), host);
    }
  }

  // ----- enumeration -----

  /** The addresses from `lo` up to `hi` that are not skipped, ascending. */
  function Usable(n: Net, gateway: Option<IPv4>, lo: nat, hi: nat): seq<nat>
    requires n.Valid()
    decreases hi
  {
    if lo >= hi then []
    else Usable(n, gateway, lo, hi - 1) + (if n.Skips(gateway, hi - 1) then [] else [hi - 1])
  }

  function Truncated<T>(s: seq<T>): seq<T> {
    if |s| > MAX_POOL_SIZE then s[..MAX_POOL_SIZE] else s
  }

  lemma {:induction false} UsableExact(n: Net, gateway: Option<IPv4>, lo: nat, hi: nat)
    requires n.Valid()
    ensures forall x :: x in Usable(n, gateway, lo, hi) <==> lo <= x < hi && !n.Skips(gateway, x)
    ensures Ascending(Usable(n, gateway, lo, hi))
    decreases hi
  {
    if lo < hi {
      UsableExact(n, gateway, lo, hi - 1);
      var before := Usable(n, gateway, lo, hi - 1);
      assert forall i :: 0 <= i < |before| ==> before[i] in before;
    }
  }

  lemma {:induction false} UsablePrefix(n: Net, gateway: Option<IPv4>, lo: nat, mid: nat, hi: nat)
    requires n.Valid() && mid <= hi
    ensures Usable(n, gateway, lo, mid) <= Usable(n, gateway, lo, hi)
    decreases hi
  {
    if mid < hi && lo < hi {
      UsablePrefix(n, gateway, lo, mid, hi - 1);
    }
  }

  function Within(x: int, lo: int, hi: int): nat {
    if lo <= x < hi then 1 else 0
  }

  /** At most three addresses are skipped. */
  lemma {:induction false} UsableCount(n: Net, gateway: Option<IPv4>, lo: nat, hi: nat)
    requires n.Valid()
    ensures |Usable(n, gateway, lo, hi)| + Within(n.First(), lo, hi) + Within(n.Broadcast(), lo, hi)
              + (if gateway.Some? then Within(gateway.value, lo, hi) else 0) >= hi - lo
    decreases hi
  {
    if lo < hi {
      UsableCount(n, gateway, lo, hi - 1);
    }
  }

  lemma PoolLoopStep(n: Net, gateway: Option<IPv4>, k: nat, ip: nat)
    requires n.Valid() && k <= n.Size() && ip == (n.First() + k) % 0x1_0000_0000
    requires |Usable(n, gateway, n.First(), n.First() + k)| <= MAX_POOL_SIZE
    ensures n.Contains(ip) <==> k < n.Size()
    ensures k < n.Size() ==> ip == n.First() + k
  {
    NetIsRange(n);
    UsableCount(n, gateway, n.First(), n.First() + k);
  }

  lemma FullIsTruncated(n: Net, gateway: Option<IPv4>, k: nat, ips: seq<nat>)
    requires n.Valid() && n.First() <= k <= n.First() + n.Size()
    requires ips == Usable(n, gateway, n.First(), k) && |ips| == MAX_POOL_SIZE
    ensures ips == Truncated(Usable(n, gateway, n.First(), n.First() + n.Size()))
  {
    UsablePrefix(n, gateway, n.First(), k, n.First() + n.Size());
  }

  /** `incrementIP` on an IPv4 address. */
  method NextAddress(ip: array<byte>)
    requires ip.Length == 4
    modifies ip
    ensures U32At(ip[..], 0) == (old(U32At(ip[..], 0)) as int + 1) % 0x1_0000_0000
  {
    IncrementsAddress(ip[..]);
    IncrementIP(ip);
  }

  method FirstAddress(x: IPv4) returns (ip: array<byte>)
    ensures fresh(ip) && ip.Length == 4 && U32At(ip[..], 0) == x
  {
    ip := new byte[4];
    Copy(ip, 0, Put32(x));
    assert ip[..] == Put32(x);
    U32AtOfPut32(x);
  }

  /** The loop of `newSubnet`, with the address kept as four bytes that wrap around. */
  method Enumerate(n: Net, gateway: Option<IPv4>) returns (ips: seq<nat>)
    requires n.Valid()
    ensures ips == Truncated(Usable(n, gateway, n.First(), n.First() + n.Size()))
  {
    NetIsRange(n);
    ips := [];
    var first, end := n.First(), n.First() + n.Size();
    var ip := FirstAddress(first);
    ghost var k: nat := first;
    PoolLoopStep(n, gateway, 0, first);
    while n.Contains(U32At(ip[..], 0))
      invariant first <= k <= end && U32At(ip[..], 0) == k % 0x1_0000_0000
      invariant ips == Usable(n, gateway, first, k) && |ips| <= MAX_POOL_SIZE
      invariant n.Contains(U32At(ip[..], 0)) <==> k < end
      invariant k < end ==> U32At(ip[..], 0) == k
      decreases end - k
    {
      if |ips| >= MAX_POOL_SIZE {
        FullIsTruncated(n, gateway, k, ips);
        return;
      }
      if !n.Skips(gateway, U32At(ip[..], 0)) {
        ips := ips + [U32At(ip[..], 0)];
      }
      NextAddress(ip);
      k := k + 1;
      PoolLoopStep(n, gateway, k - first, U32At(ip[..], 0));
    }
  }

  ghost predicate Ascending(s: seq<nat>) {
    forall i, j :: 0 <= i < j < |s| ==> s[i] < s[j]
  }

  /** Cutting an ascending sequence keeps its least elements. */
  lemma TruncatedKeepsLeast(s: seq<nat>)
    requires Ascending(s)
    ensures var t := Truncated(s);
            && Ascending(t) && NoDuplicates(t)
            && (forall x :: x in t ==> x in s)
            && (forall x :: x in s && x !in t ==> |t| == MAX_POOL_SIZE && forall y :: y in t ==> y < x)
  {
    var t := Truncated(s);
    forall x | x in s && x !in t ensures |t| == MAX_POOL_SIZE && forall y :: y in t ==> y < x {
      var j :| 0 <= j < |s| && s[j] == x;
      assert t == s[..|t|] && j >= |t|;
    }
  }

  /** The address shares its leading bits with the network's. */
  predicate Inside(n: Net, x: int)
    requires n.Valid()
  {
    0 <= x < 0x1_0000_0000 && x / Power2(32 - n.prefix) == n.address / Power2(32 - n.prefix)
  }

  /** Free for clients: in the network with a smaller and a larger address there, and not the gateway's. */
  ghost predicate Assignable(n: Net, gateway: Option<IPv4>, x: int)
    requires n.Valid()
  {
    && Inside(n, x)
    && (exists y :: Inside(n, y) && y < x)
    && (exists y :: Inside(n, y) && x < y)
    && gateway != Some(x)
  }

  lemma {:induction false} HighBitsDivide(x: nat, n: nat)
    ensures HighBits(x, n) == x / Power2(n)
    decreases n
  {
    if n > 0 {
      HighBitsDivide(x / 2, n - 1);
      DivideTwice(x, Power2(n - 1));
    }
  }

  lemma DivideTwice(x: nat, p: nat)
    requires p > 0
    ensures x / 2 / p == x / (2 * p)
  {
    var q, r := x / 2 / p, x / 2 % p;
    assert x == 2 * (p * q + r) + x % 2;
    assert x == (2 * p) * q + (2 * r + x % 2) by {
      assert 2 * (p * q) == (2 * p) * q;
    }
    QuotientIs(x, 2 * p, q, 2 * r + x % 2);
  }

  lemma QuotientIs(x: nat, d: nat, q: nat, r: nat)
    requires r < d && x == d * q + r
    ensures x / d == q
  {
    var p := x / d;
    assert d * p <= x < d * p + d;
    if p > q {
      Multiples(d, q, p);
    } else if p < q {
      Multiples(d, p, q);
    }
  }

  lemma {:induction false} Multiples(d: nat, a: nat, b: nat)
    requires a < b
    ensures d * a + d <= d * b
    decreases b
  {
    if a < b - 1 {
      Multiples(d, a, b - 1);
      assert d * b == d * (b - 1) + d;
    }
  }

  /** The network's addresses are a range, of which it leaves out the ends and the gateway. */
  lemma SkipsExact(n: Net, gateway: Option<IPv4>, x: int)
    requires n.Valid()
    ensures Inside(n, x) <==> n.First() <= x < n.First() + n.Size()
    ensures Assignable(n, gateway, x) <==> Inside(n, x) && !n.Skips(gateway, x)
  {
    var first, last := n.First(), n.First() + n.Size() - 1;
    forall y ensures Inside(n, y) <==> first <= y <= last {
      InsideIsRange(n, y);
    }
    assert Inside(n, first) && Inside(n, last);
  }

  lemma InsideIsRange(n: Net, y: int)
    requires n.Valid()
    ensures Inside(n, y) <==> n.First() <= y < n.First() + n.Size()
  {
    NetIsRange(n);
    HighBitsDivide(n.address, 32 - n.prefix);
    if 0 <= y < 0x1_0000_0000 {
      HighBitsDivide(y, 32 - n.prefix);
      assert n.Contains(y) <==> n.First() <= y < n.First() + n.Size();
    }
  }

  /**
   The pool's addresses are, in ascending order and without duplicates, the
   assignable ones of the network; all of them, or the 65536 least.
   */
  ghost predicate IsPool(n: Net, gateway: Option<IPv4>, ips: seq<nat>)
    requires n.Valid()
  {
    && (forall i, j :: 0 <= i < j < |ips| ==> ips[i] < ips[j])
    && (forall x :: x in ips ==> Assignable(n, gateway, x))
    && (forall x :: Assignable(n, gateway, x) && x !in ips ==> |ips| == 65536 && forall y :: y in ips ==> y < x)
    && |ips| <= 65536
  }

  lemma PoolExact(n: Net, gateway: Option<IPv4>)
    requires n.Valid()
    ensures var ips := Truncated(Usable(n, gateway, n.First(), n.First() + n.Size()));
            IsPool(n, gateway, ips) && NoDuplicates(ips)
  {
    var all := Usable(n, gateway, n.First(), n.First() + n.Size());
    UsableExact(n, gateway, n.First(), n.First() + n.Size());
    TruncatedKeepsLeast(all);
    forall x ensures Assignable(n, gateway, x) <==> x in all {
      SkipsExact(n, gateway, x);
    }
  }

  method NewSubnet(n: Net, gateway: Option<IPv4>) returns (ips: seq<nat>)
    requires n.Valid()
    ensures IsPool(n, gateway, ips)
  {
    ips := Enumerate(n, gateway);
    PoolExact(n, gateway);
  }
}
