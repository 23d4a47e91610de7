/** The Redis limiter: one sorted set a key, and exactly the decisions of the in-process deque. */
module RedisRateLimit {
  import opened Wrappers
  import opened RateLimit

  /** A bucket: member to score, and when Redis drops the whole key on its own clock. */
  datatype ZSet = ZSet(hits: map<string, real>, expireAt: Option<real>)

  const EMPTY := ZSet(map[], None)

  /** What Redis shows a command at `server`: nothing, once the key has expired. */
  function Live(z: ZSet, server: real): ZSet {
    if z.expireAt.Some? && z.expireAt.value <= server then EMPTY else z
  }

  /** `ZREMRANGEBYSCORE key 0 cutoff`; a set with no members is no key and keeps no expiry. */
  function RemoveUpTo(z: ZSet, cutoff: real): ZSet {
    var hits := map m | m in z.hits && !(0.0 <= z.hits[m] <= cutoff) :: z.hits[m];
    if hits == map[] then EMPTY else ZSet(hits, z.expireAt)
  }

  datatype Reply = Reply(allowed: bool, count: nat, bucket: ZSet)

  /** The whole script. */
  function Script(z: ZSet, cutoff: real, member: string, now: real, limit: nat, ttl: nat, server: real): Reply {
    var kept := RemoveUpTo(Live(z, server), cutoff);
    if |kept.hits| >= limit then Reply(false, |kept.hits|, kept)
    else Reply(true, |kept.hits| + 1, ZSet(kept.hits[member := now], Some(server + ttl as real)))
  }

  /** 429, 503 when Redis cannot be reached, or through. */
  datatype Verdict = Allowed | TooManyRequests | Unavailable

  function BucketKey(prefix: string, user: string): string {
    prefix + ":" + user
  }

  class RedisRateLimiter {
    const config: Config
    const prefix: string
    var store: map<string, ZSet>

    constructor (config: Config, prefix: string)
      ensures this.config == config && this.prefix == prefix && store == map[]
    {
      this.config, this.prefix, store := config, prefix, map[];
    }

    function Bucket(key: string): ZSet
      reads this
    {
      if key in store then store[key] else EMPTY
    }

    /** `reachable` is whether Redis answered; if it did not, the limiter fails closed. */
    method Check(user: string, role: string, now: real, member: string, server: real, reachable: bool)
      returns (v: Verdict)
      modifies this`store
      ensures !reachable ==> v == Unavailable && store == old(store)
      ensures reachable ==>
        var window := config.WindowFor(role);
        var key := BucketKey(prefix, user);
        var r := Script(old(Bucket(key)), now - window as real, member, now, config.LimitFor(role), window + 1, server);
        && (v == if r.allowed then Allowed else TooManyRequests)
        && store == old(store)[key := r.bucket]
    {
      var limit := config.LimitFor(role);
      var window := config.WindowFor(role);
      var key := BucketKey(prefix, user);
      if !reachable {
        return Unavailable;
      }
      var z := RemoveUpTo(Live(Bucket(key), server), now - window as real);
      if |z.hits| >= limit {
        store := store[key := z];
        return TooManyRequests;
      }
      store := store[key := ZSet(z.hits[member := now], Some(server + (window + 1) as real))];
      return Allowed;
    }
  }

  // A run of one bucket

  /** One call: the client's clock, Redis's clock, and the unique member it would add. */
  datatype Call = Call(now: real, server: real, member: string)

  function Run(z: ZSet, c: Call, limit: nat, window: nat): Reply {
    Script(z, c.now - window as real, c.member, c.now, limit, window + 1, c.server)
  }

  function RedisAfter(calls: seq<Call>, limit: nat, window: nat): ZSet {
    if calls == [] then EMPTY
    else
      Run(RedisAfter(calls[..|calls| - 1], limit, window), calls[|calls| - 1], limit, window).bucket
  }

  function RedisAllowed(calls: seq<Call>, limit: nat, window: nat, i: nat): bool
    requires i < |calls|
  {
    Run(RedisAfter(calls[..i], limit, window), calls[i], limit, window).allowed
  }

  function Times(calls: seq<Call>): (t: seq<real>)
    ensures |t| == |calls| && forall i | 0 <= i < |t| :: t[i] == calls[i].now
  {
    seq(|calls|, i requires 0 <= i < |calls| => calls[i].now)
  }

  ghost predicate Positive(calls: seq<Call>) {
    forall i | 0 <= i < |calls| :: 0.0 <= calls[i].now
  }

  /**
   Epoch times that do not go back, members used once, and two clocks that
   drift apart by at most the extra second of `EXPIRE window + 1`.
   */
  ghost predicate Orderly(calls: seq<Call>) {
    && Positive(calls)
    && (forall i, j | 0 <= i < j < |calls| ::
          && calls[i].now <= calls[j].now
          && calls[i].member != calls[j].member
          && calls[j].server - calls[i].server <= calls[j].now - calls[i].now + 1.0)
  }

  function Survivors(hits: map<string, real>, lo: real): set<string> {
    set m | m in hits && hits[m] > lo
  }

  /** The set holds hits of the calls so far, and expires a window and a second after the newest of them. */
  ghost predicate BucketOk(calls: seq<Call>, z: ZSet, window: nat) {
    && (forall m | m in z.hits :: exists i | 0 <= i < |calls| :: calls[i].member == m && calls[i].now == z.hits[m])
    && (z.hits != map[] ==> z.expireAt.Some? && exists l | 0 <= l < |calls| :: NewestHit(calls, z, window, l))
  }

  ghost predicate NewestHit(calls: seq<Call>, z: ZSet, window: nat, l: nat) {
    && l < |calls|
    && z.expireAt == Some(calls[l].server + (window + 1) as real)
    && forall m | m in z.hits :: z.hits[m] <= calls[l].now
  }

  /** Expiry is harmless: a key that has expired by `c` holds no hit inside the window. */
  lemma ExpiryDropsNothingLive(calls: seq<Call>, c: Call, z: ZSet, window: nat, lo: real)
    requires Orderly(calls + [c]) && BucketOk(calls, z, window) && c.now - window as real <= lo
    ensures Survivors(Live(z, c.server).hits, lo) == Survivors(z.hits, lo)
    ensures BucketOk(calls, Live(z, c.server), window)
  {
    if Live(z, c.server) != z && z.hits != map[] {
      var l :| 0 <= l < |calls| && NewestHit(calls, z, window, l);
      var all := calls + [c];
      assert all[l] == calls[l] && all[|calls|] == c;
      assert all[|calls|].server - all[l].server <= all[|calls|].now - all[l].now + 1.0;
      forall m | m in z.hits ensures z.hits[m] <= lo {
      }
    }
  }

  lemma RemoveKeepsSurvivors(calls: seq<Call>, z: ZSet, window: nat, cutoff: real, lo: real)
    requires Positive(calls) && BucketOk(calls, z, window) && cutoff <= lo
    ensures Survivors(RemoveUpTo(z, cutoff).hits, lo) == Survivors(z.hits, lo)
    ensures RemoveUpTo(z, cutoff).hits.Keys == Survivors(z.hits, cutoff)
    ensures BucketOk(calls, RemoveUpTo(z, cutoff), window)
  {
    var r := RemoveUpTo(z, cutoff);
    assert forall m | m in z.hits :: 0.0 <= z.hits[m];
    if r.hits != map[] {
      assert z.hits != map[];
      var l :| 0 <= l < |calls| && NewestHit(calls, z, window, l);
      assert NewestHit(calls, r, window, l);
    }
  }

  lemma BucketOkGrows(calls: seq<Call>, c: Call, z: ZSet, window: nat)
    requires BucketOk(calls, z, window)
    ensures BucketOk(calls + [c], z, window)
  {
    var all := calls + [c];
    forall m | m in z.hits ensures exists i | 0 <= i < |all| :: all[i].member == m && all[i].now == z.hits[m] {
      var i :| 0 <= i < |calls| && calls[i].member == m && calls[i].now == z.hits[m];
      assert all[i] == calls[i];
    }
    if z.hits != map[] {
      var l :| 0 <= l < |calls| && NewestHit(calls, z, window, l);
      assert NewestHit(all, z, window, l);
    }
  }

  lemma PushedIsOk(calls: seq<Call>, c: Call, z: ZSet, window: nat)
    requires BucketOk(calls, z, window) && Orderly(calls + [c])
    ensures BucketOk(calls + [c], ZSet(z.hits[c.member := c.now], Some(c.server + (window + 1) as real)), window)
    ensures c.member !in z.hits
  {
    var all := calls + [c];
    var pushed := ZSet(z.hits[c.member := c.now], Some(c.server + (window + 1) as real));
    assert all[|calls|] == c;
    forall m | m in z.hits
      ensures m != c.member && z.hits[m] <= c.now
      ensures exists i | 0 <= i < |all| :: all[i].member == m && all[i].now == z.hits[m]
    {
      var i :| 0 <= i < |calls| && calls[i].member == m && calls[i].now == z.hits[m];
      assert all[i] == calls[i];
      assert all[i].member != all[|calls|].member && all[i].now <= all[|calls|].now;
    }
    assert NewestHit(all, pushed, window, |calls|);
  }

  lemma SizeOfPushed(hits: map<string, real>, member: string, now: real, lo: real)
    requires member !in hits
    ensures |Survivors(hits[member := now], lo)| == |Survivors(hits, lo)| + if now > lo then 1 else 0
  {
    var s, t := Survivors(hits, lo), Survivors(hits[member := now], lo);
    assert t == if now > lo then s + {member} else s;
  }

  lemma OrderlyPrefix(calls: seq<Call>, n: nat)
    requires Orderly(calls) && n <= |calls|
    ensures Orderly(calls[..n]) && NonDecreasing(Times(calls[..n])) && NonDecreasing(Times(calls))
    ensures Times(calls[..n]) == Times(calls)[..n]
  {
  }

  lemma CallsBeforeArePositive(before: seq<Call>, c: Call)
    requires Orderly(before + [c])
    ensures Positive(before)
  {
    assert forall i | 0 <= i < |before| :: (before + [c])[i] == before[i];
  }

  lemma KeptSurvive(before: seq<Call>, z: ZSet, live: ZSet, window: nat, cutoff: real, lo: real)
    requires Positive(before) && BucketOk(before, live, window) && cutoff <= lo
    requires Survivors(live.hits, lo) == Survivors(z.hits, lo) && Survivors(live.hits, cutoff) == Survivors(z.hits, cutoff)
    ensures var kept := RemoveUpTo(live, cutoff);
      && |kept.hits| == |Survivors(z.hits, cutoff)| && Survivors(kept.hits, lo) == Survivors(z.hits, lo)
      && BucketOk(before, kept, window)
  {
    RemoveKeepsSurvivors(before, live, window, cutoff, lo);
    assert |RemoveUpTo(live, cutoff).hits| == |RemoveUpTo(live, cutoff).hits.Keys|;
  }

  /** What expiry and eviction leave for the script to count. */
  lemma KeptCounts(before: seq<Call>, c: Call, z: ZSet, window: nat, lo: real)
    requires Orderly(before + [c]) && BucketOk(before, z, window) && c.now - window as real <= lo
    ensures var kept := RemoveUpTo(Live(z, c.server), c.now - window as real);
      && |kept.hits| == |Survivors(z.hits, c.now - window as real)|
      && Survivors(kept.hits, lo) == Survivors(z.hits, lo)
      && BucketOk(before, kept, window)
  {
    var cutoff := c.now - window as real;
    CallsBeforeArePositive(before, c);
    ExpiryDropsNothingLive(before, c, z, window, lo);
    ExpiryDropsNothingLive(before, c, z, window, cutoff);
    KeptSurvive(before, z, Live(z, c.server), window, cutoff, lo);
  }

  /** What one run of the script decides, counts and keeps, in terms of the survivors before it. */
  lemma ScriptCounts(before: seq<Call>, c: Call, z: ZSet, limit: nat, window: nat, lo: real)
    requires Orderly(before + [c]) && BucketOk(before, z, window) && c.now - window as real <= lo
    ensures var r := Run(z, c, limit, window);
      && (r.allowed <==> |Survivors(z.hits, c.now - window as real)| < limit)
      && BucketOk(before + [c], r.bucket, window)
      && |Survivors(r.bucket.hits, lo)| == |Survivors(z.hits, lo)| + if r.allowed && c.now > lo then 1 else 0
  {
    KeptCounts(before, c, z, window, lo);
    var kept := RemoveUpTo(Live(z, c.server), c.now - window as real);
    if |kept.hits| >= limit {
      BucketOkGrows(before, c, kept, window);
    } else {
      PushedIsOk(before, c, kept, window);
      SizeOfPushed(kept.hits, c.member, c.now, lo);
    }
  }

  lemma RedisStep(before: seq<Call>, c: Call, limit: nat, window: nat)
    ensures RedisAfter(before + [c], limit, window) == Run(RedisAfter(before, limit, window), c, limit, window).bucket
    ensures RedisAllowed(before + [c], limit, window, |before|) == Run(RedisAfter(before, limit, window), c, limit, window).allowed
    ensures Times(before + [c]) == Times(before) + [c.now]
  {
    assert (before + [c])[..|before|] == before;
  }

  /** The set and the deque show a cutoff as many hits. */
  ghost predicate CountAlike(calls: seq<Call>, limit: nat, window: nat, lo: real) {
    |Survivors(RedisAfter(calls, limit, window).hits, lo)|
    == |Evict(BucketAfter(Times(calls), limit, window), lo)|
  }

  lemma OneMoreCall(before: seq<Call>, c: Call, limit: nat, window: nat, lo: real)
    requires Orderly(before + [c]) && c.now - window as real <= lo
    requires BucketOk(before, RedisAfter(before, limit, window), window)
    requires CountAlike(before, limit, window, c.now - window as real) && CountAlike(before, limit, window, lo)
    ensures BucketOk(before + [c], RedisAfter(before + [c], limit, window), window)
    ensures CountAlike(before + [c], limit, window, lo)
    ensures RedisAllowed(before + [c], limit, window, |before|)
         == CheckBucket(BucketAfter(Times(before), limit, window), limit, window, c.now).ok
  {
    RedisStep(before, c, limit, window);
    AfterOneMore(Times(before), c.now, limit, window);
    ScriptCounts(before, c, RedisAfter(before, limit, window), limit, window, lo);
    assert SortedUpTo(BucketAfter(Times(before), limit, window), c.now) by {
      OrderlyPrefix(before + [c], |before|);
      BucketIsSorted(Times(before), limit, window, c.now);
    }
    DequeCounts(BucketAfter(Times(before), limit, window), limit, window, c.now, lo);
  }

  /** A cutoff no earlier than the last call's sees as many hits in the sorted set as in the deque. */
  ghost predicate MatchesDeque(calls: seq<Call>, limit: nat, window: nat) {
    && BucketOk(calls, RedisAfter(calls, limit, window), window)
    && forall lo | Later(calls, window, lo) :: CountAlike(calls, limit, window, lo)
  }

  predicate Later(calls: seq<Call>, window: nat, lo: real) {
    calls != [] ==> calls[|calls| - 1].now - window as real <= lo
  }

  lemma OneMoreCallMatches(before: seq<Call>, c: Call, limit: nat, window: nat)
    requires Orderly(before + [c]) && MatchesDeque(before, limit, window)
    ensures MatchesDeque(before + [c], limit, window)
    ensures RedisAllowed(before + [c], limit, window, |before|)
         == CheckBucket(BucketAfter(Times(before), limit, window), limit, window, c.now).ok
  {
    var all := before + [c];
    var cutoff := c.now - window as real;
    assert Later(before, window, cutoff) by {
      if before != [] { assert all[|before| - 1].now <= all[|before|].now; }
    }
    OneMoreCall(before, c, limit, window, cutoff);
    forall lo | Later(all, window, lo) ensures CountAlike(all, limit, window, lo) {
      assert Later(before, window, lo);
      OneMoreCall(before, c, limit, window, lo);
    }
  }

  lemma {:induction false} RedisMatchesDeque(calls: seq<Call>, limit: nat, window: nat)
    requires Orderly(calls)
    ensures MatchesDeque(calls, limit, window)
    decreases |calls|
  {
    if calls == [] {
      assert forall lo: real :: Survivors(map[], lo) == {};
    } else {
      var n := |calls| - 1;
      OrderlyPrefix(calls, n);
      RedisMatchesDeque(calls[..n], limit, window);
      assert calls[..n] + [calls[n]] == calls;
      OneMoreCallMatches(calls[..n], calls[n], limit, window);
    }
  }

  /**
   Redis refines in-process: for one bucket and the same request times the
   script makes exactly the deque's decisions, because key expiry never drops a
   hit that is still inside the window.
   */
  lemma RedisRefinesTheDeque(calls: seq<Call>, limit: nat, window: nat, i: nat)
    requires Orderly(calls) && i < |calls|
    ensures RedisAllowed(calls, limit, window, i) == Accepted(Times(calls), limit, window, i)
  {
    var before, c := calls[..i], calls[i];
    assert calls[..i + 1] == before + [c];
    OrderlyPrefix(calls, i);
    OrderlyPrefix(calls, i + 1);
    RedisMatchesDeque(before, limit, window);
    OneMoreCallMatches(before, c, limit, window);
    RedisStep(before, c, limit, window);
  }

  /** So the Redis limiter has the exact window too. */
  lemma RedisIsExact(calls: seq<Call>, limit: nat, window: nat, i: nat)
    requires Orderly(calls) && i < |calls|
    ensures RedisAllowed(calls, limit, window, i)
            <==> AcceptedIn(Times(calls), limit, window, calls[i].now - window as real, calls[i].now, i) < limit
  {
    RedisRefinesTheDeque(calls, limit, window, i);
    ExactWindow(Times(calls), limit, window, i);
  }

  /**
   The extra second is all the drift there is room for: if Redis's clock gains
   more than that between two calls, it lets through what the deque refuses.
   */
  lemma MoreDriftForgetsALiveHit(window: nat, drift: real)
    requires window > 0 && drift > 1.0
    ensures exists calls :: DriftsBy(calls, drift) && RedisAllowed(calls, 1, window, 1)
                            && !Accepted(Times(calls), 1, window, 1)
  {
    var w := window as real;
    var later := if w + 1.0 - drift > 0.0 then w + 1.0 - drift else 0.0;
    var first, second := Call(0.0, 0.0, "a"), Call(later, later + drift, "b");
    var calls := [first, second];
    RedisStep([], first, 1, window);
    RedisStep([first], second, 1, window);
    assert [] + [first] == [first] && [first] + [second] == calls;
    AfterOneMore([], 0.0, 1, window);
    AfterOneMore([0.0], later, 1, window);
    assert Times(calls) == [0.0] + [later] && [] + [0.0] == [0.0];
    assert DriftsBy(calls, drift);
  }

  /** Two calls in order, between which Redis's clock gains `drift` on the caller's. */
  predicate DriftsBy(calls: seq<Call>, drift: real) {
    && |calls| == 2 && 0.0 <= calls[0].now <= calls[1].now && calls[0].member != calls[1].member
    && calls[1].server - calls[0].server == calls[1].now - calls[0].now + drift
  }

  // Refused calls leave no trace in Redis either

  function RedisDecisions(calls: seq<Call>, limit: nat, window: nat): (d: seq<bool>)
    ensures |d| == |calls| && forall i | 0 <= i < |calls| :: d[i] == RedisAllowed(calls, limit, window, i)
  {
    seq(|calls|, i requires 0 <= i < |calls| => RedisAllowed(calls, limit, window, i))
  }

  lemma RedisDecidesLikeTheDeque(calls: seq<Call>, limit: nat, window: nat)
    requires Orderly(calls)
    ensures RedisDecisions(calls, limit, window) == Decisions(Times(calls), limit, window)
  {
    forall i | 0 <= i < |calls| ensures RedisAllowed(calls, limit, window, i) == Accepted(Times(calls), limit, window, i) {
      RedisRefinesTheDeque(calls, limit, window, i);
    }
  }

  /** What `Orderly` says of an earlier and a later call. */
  predicate Follows(c: Call, last: Call) {
    c.now <= last.now && c.member != last.member && last.server - c.server <= last.now - c.now + 1.0
  }

  lemma LastFollows(calls: seq<Call>, n: nat)
    requires Orderly(calls) && n < |calls|
    ensures 0.0 <= calls[n].now && forall c | c in calls[..n] :: Follows(c, calls[n])
  {
  }

  lemma OrderlyPush(calls: seq<Call>, last: Call)
    requires Orderly(calls) && 0.0 <= last.now && forall c | c in calls :: Follows(c, last)
    ensures Orderly(calls + [last])
  {
    assert forall i | 0 <= i < |calls| :: calls[i] in calls;
  }

  lemma {:induction false} KeptAreCalls(calls: seq<Call>, keep: seq<bool>)
    requires |calls| == |keep|
    ensures Times(Kept(calls, keep)) == Kept(Times(calls), keep)
    ensures forall c | c in Kept(calls, keep) :: c in calls
    decreases |calls|
  {
    if calls != [] {
      var n := |calls| - 1;
      KeptAreCalls(calls[..n], keep[..n]);
      assert Times(calls[..n]) == Times(calls)[..n];
      KeptLast(calls, keep);
      KeptLast(Times(calls), keep);
    }
  }

  lemma {:induction false} KeptCallsAreOrderly(calls: seq<Call>, keep: seq<bool>)
    requires |calls| == |keep| && Orderly(calls)
    ensures Orderly(Kept(calls, keep))
    decreases |calls|
  {
    if calls != [] {
      var n := |calls| - 1;
      OrderlyPrefix(calls, n);
      KeptCallsAreOrderly(calls[..n], keep[..n]);
      KeptAreCalls(calls[..n], keep[..n]);
      LastFollows(calls, n);
      OrderlyPush(Kept(calls[..n], keep[..n]), calls[n]);
    }
  }

  /** The two-run theorem for Redis: deleting refused calls changes no other decision. */
  lemma RedisRefusedLeaveNoTrace(calls: seq<Call>, keep: seq<bool>, limit: nat, window: nat)
    requires Orderly(calls) && |keep| == |calls|
    requires forall i | 0 <= i < |calls| && !keep[i] :: !RedisAllowed(calls, limit, window, i)
    ensures RedisDecisions(Kept(calls, keep), limit, window) == Kept(RedisDecisions(calls, limit, window), keep)
  {
    RedisDecidesLikeTheDeque(calls, limit, window);
    assert forall i | 0 <= i < |calls| ::
        RedisDecisions(calls, limit, window)[i] == Decisions(Times(calls), limit, window)[i];
    OrderlyPrefix(calls, |calls|);
    RefusedLeaveNoTrace(Times(calls), keep, limit, window);
    KeptCallsAreOrderly(calls, keep);
    KeptAreCalls(calls, keep);
    RedisDecidesLikeTheDeque(Kept(calls, keep), limit, window);
  }
}
