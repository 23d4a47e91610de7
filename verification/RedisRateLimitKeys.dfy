/** The Redis limiter over any mix of keys lets through exactly what the in-process one does. */
module RedisRateLimitKeys {
  import opened RateLimit
  import opened RateLimitKeys
  import opened RedisRateLimit

  /** One request as the limiter sees it, with both clocks and its unique member. */
  datatype Hit = Hit(key: string, role: string, call: Call)

  lemma BucketsAreApart(prefix: string, key: string, other: string)
    ensures BucketKey(prefix, key) == BucketKey(prefix, other) <==> key == other
  {
    assert BucketKey(prefix, key)[|prefix| + 1..] == key && BucketKey(prefix, other)[|prefix| + 1..] == other;
  }

  function BucketOf(store: map<string, ZSet>, bucket: string): ZSet {
    if bucket in store then store[bucket] else EMPTY
  }

  /** What `RedisRateLimiter.Check` does with a request that reaches Redis. */
  function Answer(config: Config, prefix: string, store: map<string, ZSet>, h: Hit): Reply {
    Run(BucketOf(store, BucketKey(prefix, h.key)), h.call, config.LimitFor(h.role), config.WindowFor(h.role))
  }

  function StoreAfter(config: Config, prefix: string, run: seq<Hit>): map<string, ZSet> {
    if run == [] then map[]
    else
      var h, before := run[|run| - 1], StoreAfter(config, prefix, run[..|run| - 1]);
      before[BucketKey(prefix, h.key) := Answer(config, prefix, before, h).bucket]
  }

  /** Whether request `i` of the run was let through. */
  function Let(config: Config, prefix: string, run: seq<Hit>, i: nat): bool
    requires i < |run|
  {
    Answer(config, prefix, StoreAfter(config, prefix, run[..i]), run[i]).allowed
  }

  /** All the decisions of a run. */
  function Decided(config: Config, prefix: string, run: seq<Hit>): (d: seq<bool>)
    ensures |d| == |run| && forall i | 0 <= i < |run| :: d[i] == Let(config, prefix, run, i)
  {
    seq(|run|, i requires 0 <= i < |run| => Let(config, prefix, run, i))
  }

  /** How many of the first `n` requests were decided for under `key` at a time in `(lo, hi]`. */
  function CountIn(run: seq<Hit>, decided: seq<bool>, key: string, lo: real, hi: real, n: nat): nat
    requires n <= |run| == |decided|
  {
    if n == 0 then 0
    else CountIn(run, decided, key, lo, hi, n - 1) +
         if run[n - 1].key == key && decided[n - 1] && lo < run[n - 1].call.now <= hi then 1 else 0
  }

  function CallsOf(run: seq<Hit>, key: string): seq<Call> {
    if run == [] then []
    else
      var last := run[|run| - 1];
      CallsOf(run[..|run| - 1], key) + if last.key == key then [last.call] else []
  }

  function AllCalls(run: seq<Hit>): (calls: seq<Call>)
    ensures |calls| == |run| && forall i | 0 <= i < |run| :: calls[i] == run[i].call
  {
    seq(|run|, i requires 0 <= i < |run| => run[i].call)
  }

  /** The same run, as the in-process limiter sees it. */
  function InProcess(run: seq<Hit>): (same: seq<Request>)
    ensures |same| == |run| && forall i | 0 <= i < |run| :: same[i] == Request(run[i].key, run[i].role, run[i].call.now)
  {
    seq(|run|, i requires 0 <= i < |run| => Request(run[i].key, run[i].role, run[i].call.now))
  }

  lemma {:induction false} CallsOfAreCalls(run: seq<Hit>, key: string)
    ensures forall c | c in CallsOf(run, key) :: c in AllCalls(run)
    decreases |run|
  {
    if run != [] {
      var n := |run| - 1;
      CallsOfAreCalls(run[..n], key);
      assert AllCalls(run[..n]) == AllCalls(run)[..n] && AllCalls(run)[n] == run[n].call;
    }
  }

  /** A key's own calls are in order when all are. */
  lemma {:induction false} CallsOfAreOrderly(run: seq<Hit>, key: string)
    requires Orderly(AllCalls(run))
    ensures Orderly(CallsOf(run, key))
    decreases |run|
  {
    if run != [] {
      var n := |run| - 1;
      CallsOfAreOrderly(run[..n], key);
      CallsOfAreCalls(run[..n], key);
      LastFollows(AllCalls(run), n);
      assert AllCalls(run)[..n] == AllCalls(run[..n]);
      OrderlyPush(CallsOf(run[..n], key), run[n].call);
    }
  }

  lemma {:induction false} TimesOfCalls(run: seq<Hit>, key: string)
    ensures Times(CallsOf(run, key)) == TimesOf(InProcess(run), key)
    decreases |run|
  {
    if run != [] {
      var n := |run| - 1;
      TimesOfCalls(run[..n], key);
      assert InProcess(run)[..n] == InProcess(run[..n]);
    }
  }

  /** A key's sorted set is that of its own calls: other keys do not touch it. */
  lemma {:induction false} BucketsAreIndependent(config: Config, prefix: string, run: seq<Hit>, key: string, role: string)
    requires OneRole(InProcess(run), key, role)
    ensures BucketOf(StoreAfter(config, prefix, run), BucketKey(prefix, key))
         == RedisAfter(CallsOf(run, key), config.LimitFor(role), config.WindowFor(role))
    decreases |run|
  {
    if run != [] {
      var n := |run| - 1;
      assert InProcess(run[..n]) == InProcess(run)[..n];
      BucketsAreIndependent(config, prefix, run[..n], key, role);
      BucketsAreApart(prefix, run[n].key, key);
      if run[n].key == key {
        assert InProcess(run)[n].role == role;
        RedisStep(CallsOf(run[..n], key), run[n].call, config.LimitFor(role), config.WindowFor(role));
      } else {
        assert CallsOf(run, key) == CallsOf(run[..n], key);
      }
    }
  }

  /** What Redis decides of a request is what it would decide if its key were the only one. */
  lemma LetIsAllowed(config: Config, prefix: string, run: seq<Hit>, i: nat)
    requires i < |run| && OneRole(InProcess(run), run[i].key, run[i].role)
    ensures var before := CallsOf(run[..i], run[i].key);
      Let(config, prefix, run, i)
      == RedisAllowed(before + [run[i].call], config.LimitFor(run[i].role), config.WindowFor(run[i].role), |before|)
  {
    var h := run[i];
    assert InProcess(run[..i]) == InProcess(run)[..i];
    BucketsAreIndependent(config, prefix, run[..i], h.key, h.role);
    RedisStep(CallsOf(run[..i], h.key), h.call, config.LimitFor(h.role), config.WindowFor(h.role));
  }

  lemma CallsUpTo(run: seq<Hit>, i: nat)
    requires i < |run|
    ensures CallsOf(run[..i + 1], run[i].key) == CallsOf(run[..i], run[i].key) + [run[i].call]
  {
    assert run[..i + 1][..i] == run[..i];
  }

  lemma AllowedIsAccepted(before: seq<Call>, c: Call, limit: nat, window: nat)
    requires Orderly(before + [c])
    ensures RedisAllowed(before + [c], limit, window, |before|) == Accepted(Times(before) + [c.now], limit, window, |before|)
  {
    RedisRefinesTheDeque(before + [c], limit, window, |before|);
    assert Times(before + [c]) == Times(before) + [c.now];
  }

  lemma CallsUpToAreOrderly(run: seq<Hit>, i: nat)
    requires i < |run| && Orderly(AllCalls(run))
    ensures Orderly(CallsOf(run[..i], run[i].key) + [run[i].call])
  {
    CallsUpTo(run, i);
    CallsOfAreOrderly(run[..i + 1], run[i].key);
  }

  lemma LetIsAccepted(config: Config, prefix: string, run: seq<Hit>, i: nat)
    requires i < |run| && Orderly(AllCalls(run)) && OneRole(InProcess(run), run[i].key, run[i].role)
    ensures var times := Times(CallsOf(run[..i], run[i].key));
      Let(config, prefix, run, i)
      == Accepted(times + [run[i].call.now], config.LimitFor(run[i].role), config.WindowFor(run[i].role), |times|)
  {
    var h := run[i];
    LetIsAllowed(config, prefix, run, i);
    CallsUpToAreOrderly(run, i);
    AllowedIsAccepted(CallsOf(run[..i], h.key), h.call, config.LimitFor(h.role), config.WindowFor(h.role));
  }

  /** Request for request, both limiters decide alike. */
  lemma BothLimitersAgree(config: Config, prefix: string, run: seq<Hit>, i: nat)
    requires i < |run| && Orderly(AllCalls(run)) && OneRole(InProcess(run), run[i].key, run[i].role)
    ensures Let(config, prefix, run, i) == Passed(config, InProcess(run), i)
  {
    LetIsAccepted(config, prefix, run, i);
    TimesOfCalls(run[..i], run[i].key);
    assert InProcess(run[..i]) == InProcess(run)[..i];
    PassedIsAccepted(config, InProcess(run), i);
  }

  ghost predicate RolesAgree(run: seq<Hit>) {
    forall i | 0 <= i < |run| :: OneRole(InProcess(run), run[i].key, run[i].role)
  }

  lemma {:induction false} CountsArePassed(config: Config, run: seq<Hit>, d: seq<bool>, key: string, lo: real, hi: real, n: nat)
    requires n <= |run| == |d| && forall i | 0 <= i < n :: d[i] == Passed(config, InProcess(run), i)
    ensures CountIn(run, d, key, lo, hi, n) == PassedIn(config, InProcess(run), key, lo, hi, n)
  {
    if n > 0 {
      CountsArePassed(config, run, d, key, lo, hi, n - 1);
    }
  }

  /** One arrival at an entry point, with Redis's clock and its member. */
  datatype Visit = Visit(caller: Caller, call: Call)

  function AsHits(visits: seq<Visit>): (run: seq<Hit>)
    ensures |run| == |visits|
    ensures forall i | 0 <= i < |run| :: run[i] == Hit(visits[i].caller.Key(), visits[i].caller.Role(), visits[i].call)
  {
    seq(|visits|, i requires 0 <= i < |visits| => Hit(visits[i].caller.Key(), visits[i].caller.Role(), visits[i].call))
  }

  lemma VisitsKeepToOneRole(visits: seq<Visit>)
    requires forall j | 0 <= j < |visits| :: visits[j].caller.Valid()
    ensures RolesAgree(AsHits(visits))
  {
    var run := AsHits(visits);
    forall i, j | 0 <= i < |run| && 0 <= j < |run| && run[j].key == run[i].key ensures run[j].role == run[i].role {
      OneKeyOneRole(visits[j].caller, visits[i].caller);
    }
  }

  /** Decision `i` is for the request if and only if fewer than its limit went through in the window that ends now. */
  predicate ExactDecision(config: Config, run: seq<Hit>, decided: seq<bool>, i: nat)
    requires i < |run| == |decided|
  {
    var h := run[i];
    decided[i] <==>
    CountIn(run, decided, h.key, h.call.now - config.WindowFor(h.role) as real, h.call.now, i) < config.LimitFor(h.role)
  }

  lemma ExactnessCarriesOver(config: Config, run: seq<Hit>, d: seq<bool>, i: nat)
    requires i < |run| == |d| && ExactAt(config, InProcess(run), i)
    requires forall j | 0 <= j <= i :: d[j] == Passed(config, InProcess(run), j)
    ensures ExactDecision(config, run, d, i)
  {
    var h := run[i];
    CountsArePassed(config, run, d, h.key, h.call.now - config.WindowFor(h.role) as real, h.call.now, i);
    assert InProcess(run)[i] == Request(h.key, h.role, h.call.now);
  }

  lemma RedisLimiterIsExact(config: Config, prefix: string, run: seq<Hit>, i: nat)
    requires i < |run| && Orderly(AllCalls(run)) && RolesAgree(run)
    ensures ExactDecision(config, run, Decided(config, prefix, run), i)
  {
    LimiterIsExact(config, InProcess(run), i);
    forall j | 0 <= j <= i ensures Decided(config, prefix, run)[j] == Passed(config, InProcess(run), j) {
      BothLimitersAgree(config, prefix, run, j);
    }
    ExactnessCarriesOver(config, run, Decided(config, prefix, run), i);
  }

  /**
   Every entry point, over any mix of callers, gets the exact window of its own
   role from the Redis limiter too.
   */
  lemma EveryCallerIsLimitedExactlyByRedis(config: Config, prefix: string, visits: seq<Visit>, i: nat)
    requires i < |visits| && Orderly(AllCalls(AsHits(visits)))
    requires forall j | 0 <= j < |visits| :: visits[j].caller.Valid()
    ensures ExactDecision(config, AsHits(visits), Decided(config, prefix, AsHits(visits)), i)
  {
    VisitsKeepToOneRole(visits);
    RedisLimiterIsExact(config, prefix, AsHits(visits), i);
  }
}
