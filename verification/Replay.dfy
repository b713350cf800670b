/** The hello's clock window and replay cache (master/main.go:566-585, 759-796). */
module Replay {
  import opened Bytes

  // Sixteen random bytes, read as a number.
  type Nonce = nat

  // Unix seconds, as an int64.
  type int64 = x: int | -0x8000_0000_0000_0000 <= x < 0x8000_0000_0000_0000

  const HELLO_WINDOW := 60
  const RETENTION := 120

  // ----- the clock window -----

  /** Two's-complement wrap-around to 64 bits. */
  function Wrap64(x: int): (r: int64)
    ensures (x - r) % 0x1_0000_0000_0000_0000 == 0
  {
    (x + 0x8000_0000_0000_0000) % 0x1_0000_0000_0000_0000 - 0x8000_0000_0000_0000
  }

  /** The skew test as computed, with the conversion of the timestamp and both operations wrapping. */
  predicate InWindow(now: int64, timestamp: uint64) {
    var skew: int := Wrap64(now - Wrap64(timestamp));
    var abs := if skew < 0 then Wrap64(-skew) else skew;
    abs <= HELLO_WINDOW
  }

  /**
   Exactly the timestamps within a minute of the clock pass, counted modulo 2^64,
   and besides them the one half the range away, whose distance cannot be negated.
   */
  lemma WindowExact(now: int64, timestamp: uint64)
    ensures var d := (now - timestamp) % 0x1_0000_0000_0000_0000;
            InWindow(now, timestamp) <==>
              d <= 60 || d >= 0x1_0000_0000_0000_0000 - 60 || d == 0x8000_0000_0000_0000
  {
    var d := (now - timestamp) % 0x1_0000_0000_0000_0000;
    assert Wrap64(timestamp) ==
      if timestamp < 0x8000_0000_0000_0000 then timestamp else timestamp - 0x1_0000_0000_0000_0000;
    var skew: int := Wrap64(now - Wrap64(timestamp));
    assert skew == if d < 0x8000_0000_0000_0000 then d else d - 0x1_0000_0000_0000_0000;
  }

  /** For a clock that is not negative. */
  lemma WindowAfterEpoch(now: int64, timestamp: uint64)
    requires 0 <= now && InWindow(now, timestamp)
    ensures || -HELLO_WINDOW <= now - timestamp <= HELLO_WINDOW
            || now - timestamp + 0x1_0000_0000_0000_0000 <= HELLO_WINDOW
            || timestamp == now + 0x8000_0000_0000_0000
  {
    WindowExact(now, timestamp);
    var d := (now - timestamp) % 0x1_0000_0000_0000_0000;
    assert d == if now < timestamp then now - timestamp + 0x1_0000_0000_0000_0000 else now - timestamp;
  }

  /** One timestamp is inside the window at two clock readings only if these are at most two minutes apart. */
  lemma WindowSpan(timestamp: uint64, t1: int64, t2: int64)
    requires 0 <= t1 <= t2 < 0x8000_0000_0000_0000 - HELLO_WINDOW
    requires InWindow(t1, timestamp) && InWindow(t2, timestamp)
    ensures t2 - t1 <= RETENTION
  {
    WindowAfterEpoch(t1, timestamp);
    WindowAfterEpoch(t2, timestamp);
  }

  /** In the last minute of the clock's range the span is not bounded. */
  lemma WindowSpanAtRangeEnd()
    ensures InWindow(10, 0x8000_0000_0000_0000 + 10) && InWindow(0x8000_0000_0000_0000 - 20, 0x8000_0000_0000_0000 + 10)
  {
    WindowExact(10, 0x8000_0000_0000_0000 + 10);
    WindowExact(0x8000_0000_0000_0000 - 20, 0x8000_0000_0000_0000 + 10);
  }

  // ----- the cache -----

  function Swept(seen: map<Nonce, int>, now: int): map<Nonce, int> {
    map n | n in seen && seen[n] >= now - RETENTION :: seen[n]
  }

  predicate Fresh(seen: map<Nonce, int>, nonce: Nonce, now: int) {
    nonce !in Swept(seen, now)
  }

  function Checked(seen: map<Nonce, int>, nonce: Nonce, now: int): map<Nonce, int> {
    if Fresh(seen, nonce, now) then Swept(seen, now)[nonce := now] else Swept(seen, now)
  }

  class ReplayCache {
    var seen: map<Nonce, int>

    constructor ()
      ensures seen == map[]
    {
      seen := map[];
    }

    /** Sweeps in an arbitrary order while deleting, then looks the nonce up. */
    method CheckAndAdd(nonce: Nonce, now: int) returns (ok: bool)
      modifies this
      ensures ok == Fresh(old(seen), nonce, now)
      ensures seen == Checked(old(seen), nonce, now)
    {
      var cutoff := now - RETENTION;
      var rest := seen.Keys;
      while rest != {}
        invariant rest <= seen.Keys <= old(seen).Keys
        invariant forall n :: n in seen ==> seen[n] == old(seen)[n]
        invariant forall n :: n in seen && n !in rest ==> seen[n] >= cutoff
        invariant forall n :: n in old(seen) && n !in seen ==> old(seen)[n] < cutoff
      {
        var n :| n in rest;
        rest := rest - {n};
        if seen[n] < cutoff {
          seen := seen - {n};
        }
      }
      assert seen == Swept(old(seen), now);
      if nonce in seen {
        return false;
      }
      seen := seen[nonce := now];
      return true;
    }
  }

  // ----- runs of hellos -----

  /**
   A hello, the clock reading `now` taken for it, and the verdict on its MAC.
   Hellos are listed in the order in which they get at the cache, which is locked;
   the clock is read before, without the lock, so readings may be out of order.
   */
  datatype Hello = Hello(nonce: Nonce, timestamp: uint64, authentic: bool, now: int64)

  predicate Reaches(h: Hello) {
    InWindow(h.now, h.timestamp) && h.authentic
  }

  /** What gets to the cache: hellos with the right MAC whose timestamp passes. */
  lemma ReachesExact(h: Hello)
    ensures var d := (h.now - h.timestamp) % 0x1_0000_0000_0000_0000;
            Reaches(h) <==>
              h.authentic && (d <= 60 || d >= 0x1_0000_0000_0000_0000 - 60 || d == 0x8000_0000_0000_0000)
  {
    WindowExact(h.now, h.timestamp);
  }

  /** The cache after the first `n` hellos. */
  function SeenAfter(hs: seq<Hello>, n: nat): map<Nonce, int>
    requires n <= |hs|
  {
    if n == 0 then map[]
    else
      var h, seen := hs[n - 1], SeenAfter(hs, n - 1);
      if Reaches(h) then Checked(seen, h.nonce, h.now) else seen
  }

  /** The n-th hello passes all checks of the handshake. */
  predicate Accepted(hs: seq<Hello>, n: nat)
    requires n < |hs|
  {
    Reaches(hs[n]) && Fresh(SeenAfter(hs, n), hs[n].nonce, hs[n].now)
  }

  /** The sweep for the k-th hello drops what was accepted at `t`. */
  predicate Sweeps(hs: seq<Hello>, k: nat, t: int)
    requires k < |hs|
  {
    Reaches(hs[k]) && hs[k].now - RETENTION > t
  }

  /** The i-th hello was accepted, and none of the sweeps before the n-th hello dropped its entry. */
  ghost predicate Remembered(hs: seq<Hello>, i: nat, n: nat)
    requires n <= |hs|
  {
    i < n && Accepted(hs, i) && forall k :: i < k < n ==> !Sweeps(hs, k, hs[i].now)
  }

  /** Hello `i` was accepted before the n-th, had this nonce and this reading, and is remembered. */
  ghost predicate Entered(hs: seq<Hello>, i: nat, n: nat, nonce: Nonce, t: int)
    requires n <= |hs|
  {
    Remembered(hs, i, n) && hs[i].nonce == nonce && hs[i].now == t
  }

  ghost predicate Kept(hs: seq<Hello>, n: nat, nonce: Nonce, t: int)
    requires n <= |hs|
  {
    exists i :: Entered(hs, i, n, nonce, t)
  }

  lemma EnteredStep(hs: seq<Hello>, i: nat, n: nat, nonce: Nonce, t: int)
    requires n < |hs|
    ensures Entered(hs, i, n + 1, nonce, t) <==>
              || (Entered(hs, i, n, nonce, t) && !Sweeps(hs, n, t))
              || (i == n && Accepted(hs, n) && hs[n].nonce == nonce && hs[n].now == t)
  {
  }

  lemma KeptStep(hs: seq<Hello>, n: nat, nonce: Nonce, t: int)
    requires n < |hs|
    ensures Kept(hs, n + 1, nonce, t) <==>
              || (Kept(hs, n, nonce, t) && !Sweeps(hs, n, t))
              || (Accepted(hs, n) && hs[n].nonce == nonce && hs[n].now == t)
  {
    var m := n + 1;
    if Kept(hs, m, nonce, t) {
      var i :| Entered(hs, i, m, nonce, t);
      EnteredStep(hs, i, n, nonce, t);
    }
    if Kept(hs, n, nonce, t) {
      var i :| Entered(hs, i, n, nonce, t);
      EnteredStep(hs, i, n, nonce, t);
    }
    EnteredStep(hs, n, n, nonce, t);
  }

  /** After every run, whatever the order of its readings, the cache is exactly the acceptances no sweep dropped. */
  lemma {:induction false} CacheExact(hs: seq<Hello>, n: nat, nonce: Nonce, t: int)
    requires n <= |hs|
    ensures var seen := SeenAfter(hs, n);
            nonce in seen && seen[nonce] == t <==> Kept(hs, n, nonce, t)
  {
    if n > 0 {
      CacheExact(hs, n - 1, nonce, t);
      SeenStep(hs, n - 1, nonce, t);
      KeptStep(hs, n - 1, nonce, t);
    }
  }

  /** One more hello keeps an entry unless its sweep drops it, and adds its own if accepted. */
  lemma SeenStep(hs: seq<Hello>, n: nat, nonce: Nonce, t: int)
    requires n < |hs|
    ensures var before, seen := SeenAfter(hs, n), SeenAfter(hs, n + 1);
            nonce in seen && seen[nonce] == t <==>
              || (nonce in before && before[nonce] == t && !Sweeps(hs, n, t))
              || (Accepted(hs, n) && hs[n].nonce == nonce && hs[n].now == t)
  {
  }

  /** Between hellos `i` and `j` a check swept with a reading more than two minutes past that of `i`. */
  ghost predicate Overtaken(hs: seq<Hello>, i: nat, j: nat)
    requires i < |hs| && j <= |hs|
  {
    exists k :: i < k < j && Sweeps(hs, k, hs[i].now)
  }

  /**
   Every verdict of every run: a hello that passes clock window and MAC is accepted
   exactly when each earlier acceptance of its nonce has been swept, at the latest
   by its own sweep.
   */
  lemma VerdictExact(hs: seq<Hello>, j: nat)
    requires j < |hs| && Reaches(hs[j])
    ensures Accepted(hs, j) <==>
              forall i :: 0 <= i < j && Accepted(hs, i) && hs[i].nonce == hs[j].nonce ==> Overtaken(hs, i, j + 1)
  {
    var seen, nonce := SeenAfter(hs, j), hs[j].nonce;
    if Accepted(hs, j) {
      forall i | 0 <= i < j && Accepted(hs, i) && hs[i].nonce == nonce ensures Overtaken(hs, i, j + 1) {
        if !Overtaken(hs, i, j + 1) {
          assert !Sweeps(hs, j, hs[i].now);
          assert Entered(hs, i, j, nonce, hs[i].now) && Kept(hs, j, nonce, hs[i].now);
          CacheExact(hs, j, nonce, hs[i].now);
        }
      }
    } else {
      CacheExact(hs, j, nonce, seen[nonce]);
      var i :| Entered(hs, i, j, nonce, seen[nonce]);
      assert !Overtaken(hs, i, j + 1);
    }
  }

  ghost predicate ClockInRange(hs: seq<Hello>) {
    forall k :: 0 <= k < |hs| ==> 0 <= hs[k].now < 0x8000_0000_0000_0000 - HELLO_WINDOW
  }

  /** One hello is accepted twice only if a check between the two swept with a reading that overtook the second. */
  lemma AcceptedTwiceOvertaken(hs: seq<Hello>, i: nat, j: nat)
    requires i < j < |hs| && ClockInRange(hs)
    requires hs[i].nonce == hs[j].nonce && hs[i].timestamp == hs[j].timestamp
    requires Accepted(hs, i) && Accepted(hs, j)
    ensures Overtaken(hs, i, j)
  {
    VerdictExact(hs, j);
    var k :| i < k < j + 1 && Sweeps(hs, k, hs[i].now);
    if k == j {
      WindowSpan(hs[i].timestamp, hs[i].now, hs[j].now);
    }
  }

  /** The hello accepted at `i` has been accepted again by `j`. */
  ghost predicate AcceptedAgain(hs: seq<Hello>, i: nat, j: nat)
    requires i < |hs| && j < |hs|
  {
    exists m :: i < m <= j && Accepted(hs, m) && hs[m].nonce == hs[i].nonce
  }

  /**
   Over every run: an accepted hello that is presented again, in the clock window,
   has been accepted a second time by then exactly when a check in between swept
   with a reading more than two minutes past that of the first acceptance.
   */
  lemma ReplayedExactly(hs: seq<Hello>, i: nat, j: nat)
    requires i < j < |hs| && ClockInRange(hs)
    requires Accepted(hs, i) && Reaches(hs[j]) && hs[j].nonce == hs[i].nonce
    requires forall m :: i < m <= j && hs[m].authentic && hs[m].nonce == hs[i].nonce ==>
               hs[m].timestamp == hs[i].timestamp
    ensures AcceptedAgain(hs, i, j) <==> Overtaken(hs, i, j)
  {
    if m :| i < m <= j && Accepted(hs, m) && hs[m].nonce == hs[i].nonce {
      AcceptedTwiceOvertaken(hs, i, m);
      var k :| i < k < m && Sweeps(hs, k, hs[i].now);
      assert Overtaken(hs, i, j);
    }
    if Overtaken(hs, i, j) && !AcceptedAgain(hs, i, j) {
      OvertakenAccepted(hs, i, j);
    }
  }

  /** Without another acceptance in between, a hello whose entry was overtaken is accepted again. */
  lemma OvertakenAccepted(hs: seq<Hello>, i: nat, j: nat)
    requires i < j < |hs| && Accepted(hs, i) && Reaches(hs[j]) && hs[j].nonce == hs[i].nonce
    requires Overtaken(hs, i, j) && forall m :: i < m < j && hs[m].nonce == hs[i].nonce ==> !Accepted(hs, m)
    ensures Accepted(hs, j)
  {
    forall e | 0 <= e < j && Accepted(hs, e) && hs[e].nonce == hs[j].nonce ensures Overtaken(hs, e, j + 1) {
      if e < i {
        VerdictExact(hs, i);
        var k :| e < k < i + 1 && Sweeps(hs, k, hs[e].now);
      } else {
        assert e == i;
        var k :| i < k < j && Sweeps(hs, k, hs[i].now);
      }
    }
    VerdictExact(hs, j);
  }

  /** If no check in between used a later reading than the second presentation, one hello is accepted at most once. */
  lemma AcceptedAtMostOnce(hs: seq<Hello>, i: nat, j: nat)
    requires i < j < |hs| && ClockInRange(hs)
    requires hs[i].nonce == hs[j].nonce && hs[i].timestamp == hs[j].timestamp
    requires forall k :: i < k < j && Reaches(hs[k]) ==> hs[k].now <= hs[j].now
    ensures !(Accepted(hs, i) && Accepted(hs, j))
  {
    if Accepted(hs, i) && Accepted(hs, j) {
      AcceptedTwiceOvertaken(hs, i, j);
      var k :| i < k < j && Sweeps(hs, k, hs[i].now);
      WindowSpan(hs[i].timestamp, hs[i].now, hs[j].now);
    }
  }

  lemma FirstAccepted(hs: seq<Hello>)
    requires hs != [] && Reaches(hs[0])
    ensures Accepted(hs, 0)
  {
    assert SeenAfter(hs, 0) == map[];
  }

  lemma CloseReaches(h: Hello)
    requires h.authentic && -HELLO_WINDOW <= h.now - h.timestamp <= HELLO_WINDOW
    ensures Reaches(h)
  {
    WindowExact(h.now, h.timestamp);
  }

  lemma MiddleSweeps(hs: seq<Hello>)
    requires |hs| == 3 && Reaches(hs[0]) && Reaches(hs[1]) && Reaches(hs[2])
    requires hs[0].nonce == hs[2].nonce != hs[1].nonce && hs[1].now - RETENTION > hs[0].now
    ensures Accepted(hs, 0) && Accepted(hs, 2)
  {
    FirstAccepted(hs);
    assert Sweeps(hs, 1, hs[0].now) && Overtaken(hs, 0, 2);
    OvertakenAccepted(hs, 0, 2);
  }

  /** The last two of three readings get at the cache in the opposite order: the first hello is accepted twice. */
  lemma OvertakenReadingReplays() returns (hs: seq<Hello>)
    ensures hs == [Hello(5, 160, true, 100), Hello(6, 221, true, 221), Hello(5, 160, true, 220)]
    ensures Accepted(hs, 0) && Accepted(hs, 2)
  {
    hs := [Hello(5, 160, true, 100), Hello(6, 221, true, 221), Hello(5, 160, true, 220)];
    CloseReaches(hs[0]);
    CloseReaches(hs[1]);
    CloseReaches(hs[2]);
    MiddleSweeps(hs);
  }

  // ----- the ledger of all acceptances -----

  /** Of the first `n` hellos one with this nonce was accepted at a reading not before `since`. */
  ghost predicate AcceptedSince(hs: seq<Hello>, n: nat, nonce: Nonce, since: int)
    requires n <= |hs|
  {
    exists i :: 0 <= i < n && Accepted(hs, i) && hs[i].nonce == nonce && hs[i].now >= since
  }

  /** The n-th hello gets at the cache with the latest reading so far. */
  ghost predicate Leads(hs: seq<Hello>, n: nat) {
    n < |hs| && Reaches(hs[n]) && forall k :: 0 <= k < n && Reaches(hs[k]) ==> hs[k].now <= hs[n].now
  }

  /**
   A check never refuses a nonce the ledger does not have in the last two minutes,
   and with the latest reading so far it refuses every nonce the ledger has there.
   */
  lemma CheckRefines(hs: seq<Hello>, n: nat)
    requires n < |hs| && Reaches(hs[n])
    ensures !AcceptedSince(hs, n, hs[n].nonce, hs[n].now - RETENTION) ==> Accepted(hs, n)
    ensures Leads(hs, n) && Accepted(hs, n) ==> !AcceptedSince(hs, n, hs[n].nonce, hs[n].now - RETENTION)
  {
    VerdictExact(hs, n);
    if !AcceptedSince(hs, n, hs[n].nonce, hs[n].now - RETENTION) {
      forall i | 0 <= i < n && Accepted(hs, i) && hs[i].nonce == hs[n].nonce ensures Overtaken(hs, i, n + 1) {
        assert Sweeps(hs, n, hs[i].now);
      }
    }
  }

  /** After a check with the latest reading so far the cache is exactly the ledger's last two minutes. */
  lemma CacheIsRecentLedger(hs: seq<Hello>, n: nat, nonce: Nonce, t: int)
    requires Leads(hs, n)
    ensures var seen := SeenAfter(hs, n + 1);
            nonce in seen && seen[nonce] == t <==>
              && t >= hs[n].now - RETENTION
              && exists i :: 0 <= i <= n && Accepted(hs, i) && hs[i].nonce == nonce && hs[i].now == t
  {
    CacheExact(hs, n + 1, nonce, t);
    var m := n + 1;
    if Kept(hs, m, nonce, t) {
      var i :| Entered(hs, i, m, nonce, t);
      EnteredStep(hs, i, n, nonce, t);
    }
    if t >= hs[n].now - RETENTION {
      if i :| 0 <= i <= n && Accepted(hs, i) && hs[i].nonce == nonce && hs[i].now == t {
        assert Entered(hs, i, m, nonce, t);
      }
    }
  }
}
