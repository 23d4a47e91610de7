/** The in-process sliding-window limiter: one deque of accepted times a key. */
module RateLimit {
  // Times are seconds on a clock that does not go back; a call to `Check` is atomic, since the limiter holds
  // its lock across it.

  // One bucket

  /** What the eviction loop leaves of a deque. */
  function Evict(bucket: seq<real>, cutoff: real): seq<real> {
    if bucket != [] && bucket[0] <= cutoff then Evict(bucket[1..], cutoff) else bucket
  }

  /** The deque after one request, and whether the request was let through. */
  datatype Checked = Checked(ok: bool, bucket: seq<real>)

  function CheckBucket(bucket: seq<real>, limit: nat, window: nat, now: real): Checked {
    var kept := Evict(bucket, now - window as real);
    if |kept| >= limit then Checked(false, kept) else Checked(true, kept + [now])
  }

  /** The operator's settings, as both limiters' constructors store them. */
  datatype Config = Config(demoUser: nat, limits: map<string, nat>, window: nat, windows: map<string, nat>) {
    /** An unknown role gets the demo user's limit. */
    function LimitFor(role: string): nat {
      if role in limits then limits[role] else demoUser
    }

    function WindowFor(role: string): nat {
      if role in windows then windows[role] else window
    }
  }

  class RateLimiter {
    const config: Config
    var buckets: map<string, seq<real>>

    constructor (config: Config)
      ensures this.config == config && buckets == map[]
    {
      this.config, buckets := config, map[];
    }

    /** A key that has never been used has an empty deque. */
    function Bucket(user: string): seq<real>
      reads this
    {
      if user in buckets then buckets[user] else []
    }

    method Check(user: string, role: string, now: real) returns (ok: bool)
      modifies this`buckets
      ensures var c := CheckBucket(old(Bucket(user)), config.LimitFor(role), config.WindowFor(role), now);
        ok == c.ok && buckets == old(buckets)[user := c.bucket]
    {
      var limit := config.LimitFor(role);
      var cutoff := now - config.WindowFor(role) as real;
      var bucket := Bucket(user);
      while bucket != [] && bucket[0] <= cutoff
        invariant Evict(bucket, cutoff) == Evict(old(Bucket(user)), cutoff)
        decreases |bucket|
      {
        bucket := bucket[1..];
      }
      if |bucket| >= limit {
        buckets := buckets[user := bucket];
        return false;
      }
      bucket := bucket + [now];
      buckets := buckets[user := bucket];
      return true;
    }
  }

  // One bucket over a whole run

  ghost predicate NonDecreasing(times: seq<real>) {
    forall i, j | 0 <= i < j < |times| :: times[i] <= times[j]
  }

  /** The deque after the requests at `times`. */
  function BucketAfter(times: seq<real>, limit: nat, window: nat): seq<real> {
    if times == [] then []
    else CheckBucket(BucketAfter(times[..|times| - 1], limit, window), limit, window, times[|times| - 1]).bucket
  }

  /** Whether request `i` of the run was let through. */
  function Accepted(times: seq<real>, limit: nat, window: nat, i: nat): bool
    requires i < |times|
  {
    CheckBucket(BucketAfter(times[..i], limit, window), limit, window, times[i]).ok
  }

  /** How many of the first `n` requests were accepted at a time in `(lo, hi]`. */
  function AcceptedIn(times: seq<real>, limit: nat, window: nat, lo: real, hi: real, n: nat): nat
    requires n <= |times|
  {
    if n == 0 then 0
    else AcceptedIn(times, limit, window, lo, hi, n - 1) +
         if Accepted(times, limit, window, n - 1) && lo < times[n - 1] <= hi then 1 else 0
  }

  ghost predicate SortedUpTo(bucket: seq<real>, top: real) {
    NonDecreasing(bucket) && forall i | 0 <= i < |bucket| :: bucket[i] <= top
  }

  lemma {:induction false} EvictKeepsSorted(bucket: seq<real>, cutoff: real, top: real)
    requires SortedUpTo(bucket, top)
    ensures SortedUpTo(Evict(bucket, cutoff), top)
    ensures forall i | 0 <= i < |Evict(bucket, cutoff)| :: Evict(bucket, cutoff)[i] > cutoff
    decreases |bucket|
  {
    if bucket != [] && bucket[0] <= cutoff {
      EvictKeepsSorted(bucket[1..], cutoff, top);
    }
  }

  lemma {:induction false} EvictTwice(bucket: seq<real>, first: real, second: real)
    requires first <= second
    ensures Evict(Evict(bucket, first), second) == Evict(bucket, second)
    decreases |bucket|
  {
    if bucket != [] && bucket[0] <= first {
      EvictTwice(bucket[1..], first, second);
    }
  }

  lemma {:induction false} EvictThenPush(bucket: seq<real>, now: real, cutoff: real)
    requires SortedUpTo(bucket, now)
    ensures Evict(bucket + [now], cutoff) == Evict(bucket, cutoff) + (if now > cutoff then [now] else [])
    decreases |bucket|
  {
    if bucket != [] && bucket[0] <= cutoff {
      EvictThenPush(bucket[1..], now, cutoff);
      assert (bucket + [now])[1..] == bucket[1..] + [now];
    } else if bucket == [] {
      assert bucket + [now] == [now];
      assert [now][1..] == [];
    }
  }

  /** One request more shows a later cutoff one hit more, if it passed and is still inside. */
  lemma DequeCounts(bucket: seq<real>, limit: nat, window: nat, now: real, lo: real)
    requires SortedUpTo(bucket, now) && now - window as real <= lo
    ensures var c := CheckBucket(bucket, limit, window, now);
      |Evict(c.bucket, lo)| == |Evict(bucket, lo)| + if c.ok && now > lo then 1 else 0
  {
    var cutoff := now - window as real;
    EvictTwice(bucket, cutoff, lo);
    EvictKeepsSorted(bucket, cutoff, now);
    EvictThenPush(Evict(bucket, cutoff), now, lo);
  }

  lemma {:induction false} BucketIsSorted(times: seq<real>, limit: nat, window: nat, top: real)
    requires NonDecreasing(times) && (times != [] ==> times[|times| - 1] <= top)
    ensures SortedUpTo(BucketAfter(times, limit, window), top)
    decreases |times|
  {
    if times != [] {
      var n := |times| - 1;
      BucketIsSorted(times[..n], limit, window, times[n]);
      EvictKeepsSorted(BucketAfter(times[..n], limit, window), times[n] - window as real, times[n]);
    }
  }

  lemma {:induction false} AcceptedInPrefix(times: seq<real>, longer: seq<real>, limit: nat, window: nat, lo: real,
                                            hi: real, n: nat)
    requires n <= |times| && times <= longer
    ensures AcceptedIn(times, limit, window, lo, hi, n) == AcceptedIn(longer, limit, window, lo, hi, n)
  {
    if n > 0 {
      AcceptedInPrefix(times, longer, limit, window, lo, hi, n - 1);
      assert times[..n - 1] == longer[..n - 1];
    }
  }

  /** The deque holds exactly the accepted hits a later cutoff can still see. */
  lemma {:induction false} BucketCounts(times: seq<real>, limit: nat, window: nat, lo: real, hi: real)
    requires NonDecreasing(times)
    requires times != [] ==> times[|times| - 1] - window as real <= lo && times[|times| - 1] <= hi
    ensures |Evict(BucketAfter(times, limit, window), lo)| == AcceptedIn(times, limit, window, lo, hi, |times|)
    decreases |times|
  {
    if times != [] {
      var n := |times| - 1;
      BucketCounts(times[..n], limit, window, lo, hi);
      AcceptedInPrefix(times[..n], times, limit, window, lo, hi, n);
      BucketIsSorted(times[..n], limit, window, times[n]);
      DequeCounts(BucketAfter(times[..n], limit, window), limit, window, times[n], lo);
    }
  }

  /** What the deque holds when request `i` comes is what was accepted in its window. */
  lemma DequeBefore(times: seq<real>, limit: nat, window: nat, i: nat, lo: real)
    requires NonDecreasing(times) && i < |times| && lo == times[i] - window as real
    ensures |Evict(BucketAfter(times[..i], limit, window), lo)| == AcceptedIn(times, limit, window, lo, times[i], i)
  {
    var before := times[..i];
    if i > 0 {
      assert before[i - 1] == times[i - 1] <= times[i];
    }
    BucketCounts(before, limit, window, lo, times[i]);
    AcceptedInPrefix(before, times, limit, window, lo, times[i], i);
  }

  lemma DecidedByTheDeque(times: seq<real>, limit: nat, window: nat, i: nat)
    requires i < |times|
    ensures Accepted(times, limit, window, i)
       <==> |Evict(BucketAfter(times[..i], limit, window), times[i] - window as real)| < limit
  {
  }

  /**
   The exact window: over every run, request `i` is accepted if and only if
   fewer than `limit` accepted hits lie in `(now - window, now]`.
   */
  lemma {:induction false} ExactWindow(times: seq<real>, limit: nat, window: nat, i: nat)
    requires NonDecreasing(times) && i < |times|
    ensures Accepted(times, limit, window, i)
            <==> AcceptedIn(times, limit, window, times[i] - window as real, times[i], i) < limit
  {
    var lo := times[i] - window as real;
    var held := |Evict(BucketAfter(times[..i], limit, window), lo)|;
    assert held == AcceptedIn(times, limit, window, lo, times[i], i) by { DequeBefore(times, limit, window, i, lo); }
    assert Accepted(times, limit, window, i) <==> held < limit by { DecidedByTheDeque(times, limit, window, i); }
  }

  lemma {:induction false} WiderCountsMore(times: seq<real>, limit: nat, window: nat, lo: real, hi: real, lo2: real,
                                           hi2: real, n: nat)
    requires n <= |times|
    requires lo2 <= lo
    requires forall j | 0 <= j < n :: times[j] <= hi2
    ensures AcceptedIn(times, limit, window, lo, hi, n) <= AcceptedIn(times, limit, window, lo2, hi2, n)
  {
    if n > 0 {
      WiderCountsMore(times, limit, window, lo, hi, lo2, hi2, n - 1);
    }
  }

  /** No half-open interval of the window's length ever holds more than `limit` accepted hits. */
  lemma {:induction false} NoWindowHoldsMore(times: seq<real>, limit: nat, window: nat, lo: real, n: nat)
    requires NonDecreasing(times) && n <= |times|
    ensures AcceptedIn(times, limit, window, lo, lo + window as real, n) <= limit
  {
    if n > 0 {
      NoWindowHoldsMore(times, limit, window, lo, n - 1);
      var now := times[n - 1];
      if Accepted(times, limit, window, n - 1) && lo < now <= lo + window as real {
        ExactWindow(times, limit, window, n - 1);
        WiderCountsMore(times, limit, window, lo, lo + window as real, now - window as real, now, n - 1);
      }
    }
  }

  // Refused requests leave no trace

  function Decisions(times: seq<real>, limit: nat, window: nat): (d: seq<bool>)
    ensures |d| == |times|
    ensures forall i | 0 <= i < |times| :: d[i] == Accepted(times, limit, window, i)
  {
    seq(|times|, i requires 0 <= i < |times| => Accepted(times, limit, window, i))
  }

  /** The elements whose flag is set, in order. */
  function Kept<T>(s: seq<T>, keep: seq<bool>): seq<T>
    requires |s| == |keep|
  {
    if s == [] then []
    else
      var n := |s| - 1;
      Kept(s[..n], keep[..n]) + (if keep[n] then [s[n]] else [])
  }

  ghost predicate DropsOnlyRefused(times: seq<real>, keep: seq<bool>, limit: nat, window: nat) {
    |keep| == |times| && forall i | 0 <= i < |times| && !keep[i] :: !Accepted(times, limit, window, i)
  }

  lemma DropsOnlyRefusedPrefix(times: seq<real>, keep: seq<bool>, limit: nat, window: nat)
    requires times != [] && DropsOnlyRefused(times, keep, limit, window)
    ensures var n := |times| - 1; DropsOnlyRefused(times[..n], keep[..n], limit, window)
  {
    var n := |times| - 1;
    forall i | 0 <= i < n && !keep[..n][i] ensures !Accepted(times[..n], limit, window, i) {
      assert times[..n][..i] == times[..i];
      assert !Accepted(times, limit, window, i);
    }
  }

  lemma {:induction false} KeptStaysSorted(times: seq<real>, keep: seq<bool>, top: real)
    requires |keep| == |times| && NonDecreasing(times) && (times != [] ==> times[|times| - 1] <= top)
    ensures SortedUpTo(Kept(times, keep), top)
    decreases |times|
  {
    if times != [] {
      var n := |times| - 1;
      KeptStaysSorted(times[..n], keep[..n], times[n]);
    }
  }

  lemma KeptLast<T>(s: seq<T>, keep: seq<bool>)
    requires s != [] && |s| == |keep|
    ensures var n := |s| - 1;
      Kept(s, keep) == if keep[n] then Kept(s[..n], keep[..n]) + [s[n]] else Kept(s[..n], keep[..n])
  {
  }

  lemma SameSurvivorsSameCheck(bucket: seq<real>, other: seq<real>, limit: nat, window: nat, now: real)
    requires Evict(bucket, now - window as real) == Evict(other, now - window as real)
    ensures CheckBucket(bucket, limit, window, now) == CheckBucket(other, limit, window, now)
  {
  }

  lemma AfterOneMore(times: seq<real>, now: real, limit: nat, window: nat)
    ensures BucketAfter(times + [now], limit, window)
         == CheckBucket(BucketAfter(times, limit, window), limit, window, now).bucket
    ensures Accepted(times + [now], limit, window, |times|)
         == CheckBucket(BucketAfter(times, limit, window), limit, window, now).ok
  {
    assert (times + [now])[..|times|] == times;
  }

  /** A later cutoff sees the same deque in the run with the refused requests removed. */
  lemma {:induction false} BucketWithoutRefused(times: seq<real>, keep: seq<bool>, limit: nat, window: nat, lo: real)
    requires NonDecreasing(times) && DropsOnlyRefused(times, keep, limit, window)
    requires times != [] ==> times[|times| - 1] - window as real <= lo
    ensures Evict(BucketAfter(Kept(times, keep), limit, window), lo) == Evict(BucketAfter(times, limit, window), lo)
    decreases |times|
  {
    if times != [] {
      var n := |times| - 1;
      var now := times[n];
      var cutoff := now - window as real;
      var before, flags := times[..n], keep[..n];
      assert times == before + [now];
      DropsOnlyRefusedPrefix(times, keep, limit, window);
      KeptLast(times, keep);
      AfterOneMore(before, now, limit, window);
      if keep[n] {
        BucketWithoutRefused(before, flags, limit, window, cutoff);
        AfterOneMore(Kept(before, flags), now, limit, window);
        SameSurvivorsSameCheck(BucketAfter(Kept(before, flags), limit, window), BucketAfter(before, limit, window), limit, window, now);
      } else {
        BucketWithoutRefused(before, flags, limit, window, lo);
        assert !Accepted(times, limit, window, n);
        EvictTwice(BucketAfter(before, limit, window), cutoff, lo);
      }
    }
  }

  /** A request that is kept is decided alike in both runs. */
  lemma KeptIsDecidedAlike(before: seq<real>, flags: seq<bool>, now: real, limit: nat, window: nat)
    requires NonDecreasing(before) && DropsOnlyRefused(before, flags, limit, window)
    requires before != [] ==> before[|before| - 1] <= now
    ensures Accepted(before + [now], limit, window, |before|)
         == Accepted(Kept(before, flags) + [now], limit, window, |Kept(before, flags)|)
  {
    BucketWithoutRefused(before, flags, limit, window, now - window as real);
    AfterOneMore(before, now, limit, window);
    AfterOneMore(Kept(before, flags), now, limit, window);
  }

  lemma DecisionsOfOneMore(before: seq<real>, now: real, limit: nat, window: nat)
    ensures Decisions(before + [now], limit, window)
         == Decisions(before, limit, window) + [Accepted(before + [now], limit, window, |before|)]
  {
    DecisionsPrefix(before + [now], limit, window);
    assert (before + [now])[..|before|] == before;
  }

  lemma KeptOfOneMore<T>(s: seq<T>, x: T, flags: seq<bool>, k: bool)
    requires |s| == |flags|
    ensures Kept(s + [x], flags + [k]) == Kept(s, flags) + if k then [x] else []
  {
    KeptLast(s + [x], flags + [k]);
    assert (s + [x])[..|s|] == s && (flags + [k])[..|s|] == flags;
  }

  /** One request more, kept or refused and dropped. */
  lemma OneMoreLeavesNoTrace(before: seq<real>, flags: seq<bool>, now: real, k: bool, limit: nat, window: nat)
    requires NonDecreasing(before) && DropsOnlyRefused(before, flags, limit, window)
    requires before != [] ==> before[|before| - 1] <= now
    requires Decisions(Kept(before, flags), limit, window) == Kept(Decisions(before, limit, window), flags)
    ensures Decisions(Kept(before + [now], flags + [k]), limit, window)
         == Kept(Decisions(before + [now], limit, window), flags + [k])
  {
    var kept, decided := Kept(before, flags), Decisions(before, limit, window);
    var d := Accepted(before + [now], limit, window, |before|);
    assert Decisions(before + [now], limit, window) == decided + [d] by { DecisionsOfOneMore(before, now, limit, window); }
    assert Kept(decided + [d], flags + [k]) == Kept(decided, flags) + (if k then [d] else []) by {
      KeptOfOneMore(decided, d, flags, k);
    }
    assert Kept(before + [now], flags + [k]) == kept + (if k then [now] else []) by { KeptOfOneMore(before, now, flags, k); }
    if k {
      assert Decisions(kept + [now], limit, window) == Decisions(kept, limit, window) + [d] by {
        KeptIsDecidedAlike(before, flags, now, limit, window);
        DecisionsOfOneMore(kept, now, limit, window);
      }
    } else {
      assert kept + [] == kept;
    }
  }

  /**
   Deleting any set of refused requests from a run leaves every remaining
   decision as it was: a flood of refused requests cannot hold a caller out.
   */
  lemma {:induction false} RefusedLeaveNoTrace(times: seq<real>, keep: seq<bool>, limit: nat, window: nat)
    requires NonDecreasing(times) && DropsOnlyRefused(times, keep, limit, window)
    ensures Decisions(Kept(times, keep), limit, window) == Kept(Decisions(times, limit, window), keep)
    decreases |times|
  {
    if times != [] {
      var n := |times| - 1;
      DropsOnlyRefusedPrefix(times, keep, limit, window);
      RefusedLeaveNoTrace(times[..n], keep[..n], limit, window);
      OneMoreLeavesNoTrace(times[..n], keep[..n], times[n], keep[n], limit, window);
      assert times[..n] + [times[n]] == times && keep[..n] + [keep[n]] == keep;
    }
  }

  lemma DecisionsPrefix(times: seq<real>, limit: nat, window: nat)
    requires times != []
    ensures var n := |times| - 1;
      Decisions(times, limit, window)[..n] == Decisions(times[..n], limit, window)
      && Decisions(times, limit, window) == Decisions(times[..n], limit, window) + [Accepted(times, limit, window, n)]
  {
    var n := |times| - 1;
    forall i | 0 <= i < n ensures Accepted(times, limit, window, i) == Accepted(times[..n], limit, window, i) {
      assert times[..n][..i] == times[..i];
    }
  }
}
