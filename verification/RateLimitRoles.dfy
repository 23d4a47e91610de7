/** The operator's settings, and what each of them promises the caller it is for. */
module RateLimitRoles {
  import opened Wrappers
  import opened RateLimit
  import opened RateLimitKeys
  import opened RedisRateLimit
  import opened RedisRateLimitKeys

  /** What the limiter is built from. `all` is the backstop over all visitors; zero switches it off. */
  datatype Settings = Settings(window: int, visitor: int, admin: int, all: int, login: int, signedIn: int,
                               magicLink: int, passwordChange: int, interval: int)

  /** The constructor refuses a value below one; a backstop that is off is built with a large one. */
  function Build(s: Settings): Option<Config> {
    var all := if s.all > 0 then s.all else 600;
    if s.window < 1 || s.visitor < 1 || s.admin < 1 || s.login < 1 || s.signedIn < 1 || s.magicLink < 1
       || s.passwordChange < 1 || s.interval < 1
    then None
    else
      Some(Config(
        s.visitor,
        map["demo_user" := s.visitor, "admin" := s.admin, "global" := all, "auth_login" := s.login,
            "demo_user_registered" := s.signedIn, "magic_link" := s.magicLink, "email_notice" := s.magicLink,
            "password_change" := s.passwordChange, "magic_link_interval" := 1],
        s.window,
        map["magic_link_interval" := s.interval]))
  }

  /** How often a caller may come in its window... */
  function Promised(s: Settings, c: Caller): int {
    match c
    case Visitor(_) | UnknownClient => s.visitor
    case AllVisitors => if s.all > 0 then s.all else 600
    case SignedIn(_) => s.signedIn
    case Admin => s.admin
    case Login(_) => s.login
    case MagicLink(_) | Notice(_) => s.magicLink
    case MagicLinkInterval(_) => 1
    case PasswordChange(_) => s.passwordChange
  }

  /** ...and how many seconds that is. */
  function PromisedWindow(s: Settings, c: Caller): int {
    if c.MagicLinkInterval? then s.interval else s.window
  }

  lemma EveryRoleHasItsOwn(s: Settings, c: Caller)
    requires Build(s).Some?
    ensures Build(s).value.LimitFor(c.Role()) == Promised(s, c) >= 1
    ensures Build(s).value.WindowFor(c.Role()) == PromisedWindow(s, c) >= 1
  {
  }

  // One caller, one bucket

  lemma SuffixOf(prefix: string, a: string, b: string)
    requires prefix + a == prefix + b
    ensures a == b
  {
    assert (prefix + a)[|prefix|..] == a && (prefix + b)[|prefix|..] == b;
  }

  /** Two callers share a bucket only if they are the same. */
  lemma OneKeyOneCaller(a: Caller, b: Caller)
    requires a.Valid() && b.Valid() && a.Key() == b.Key()
    ensures a == b
  {
    OneKeyOneRole(a, b);
    match a
    case Visitor(d) =>
      assert |a.Key()| == 37;
      if b.Visitor? { SuffixOf("demo_", d, b.digest); }
    case UnknownClient => assert b.Visitor? ==> |b.Key()| == 37;
    case Login(d) => SuffixOf("authlogin_", d, b.digest);
    case MagicLink(d) => SuffixOf("magiclink_", d, b.digest);
    case MagicLinkInterval(d) => SuffixOf("mlinterval_", d, b.digest);
    case Notice(d) => SuffixOf("notify_", d, b.digest);
    case PasswordChange(u) => SuffixOf("pwchange_", u, b.userId);
    case _ =>
  }

  // Every caller's own window

  predicate AllValid(arrivals: seq<Arrival>) {
    forall j | 0 <= j < |arrivals| :: arrivals[j].caller.Valid()
  }

  /** How many of the first `n` arrivals were let in for `c` at a time in `(lo, hi]`. */
  function LetInFor(config: Config, arrivals: seq<Arrival>, c: Caller, lo: real, hi: real, n: nat): nat
    requires n <= |arrivals|
  {
    if n == 0 then 0
    else LetInFor(config, arrivals, c, lo, hi, n - 1) +
         if arrivals[n - 1].caller == c && LetsIn(config, arrivals, n - 1) && lo < arrivals[n - 1].now <= hi then 1 else 0
  }

  /** Whether the in-process limiter lets arrival `i` through. */
  function LetsIn(config: Config, arrivals: seq<Arrival>, i: nat): bool
    requires i < |arrivals|
  {
    Passed(config, AsRequests(arrivals), i)
  }

  lemma KeyIsTheCallers(a: Caller, c: Caller)
    requires a.Valid() && c.Valid()
    ensures a.Key() == c.Key() <==> a == c
  {
    if a.Key() == c.Key() { OneKeyOneCaller(a, c); }
  }

  /** The requests under `key` are the arrivals of `c`. */
  predicate SameBucket(arrivals: seq<Arrival>, run: seq<Request>, c: Caller, key: string) {
    && |run| == |arrivals|
    && forall j | 0 <= j < |run| :: (run[j].key == key <==> arrivals[j].caller == c) && run[j].now == arrivals[j].now
  }

  lemma {:induction false} BucketCountsCaller(config: Config, arrivals: seq<Arrival>, c: Caller, key: string,
                                              lo: real, hi: real, n: nat)
    requires n <= |arrivals| && SameBucket(arrivals, AsRequests(arrivals), c, key)
    ensures LetInFor(config, arrivals, c, lo, hi, n) == PassedIn(config, AsRequests(arrivals), key, lo, hi, n)
  {
    if n > 0 {
      BucketCountsCaller(config, arrivals, c, key, lo, hi, n - 1);
    }
  }

  lemma {:induction false} KeysCountCallers(config: Config, arrivals: seq<Arrival>, c: Caller, lo: real, hi: real, n: nat)
    requires n <= |arrivals| && AllValid(arrivals) && c.Valid()
    ensures LetInFor(config, arrivals, c, lo, hi, n) == PassedIn(config, AsRequests(arrivals), c.Key(), lo, hi, n)
  {
    var run, key := AsRequests(arrivals), c.Key();
    assert SameBucket(arrivals, run, c, key) by {
      forall j | 0 <= j < |run| ensures (run[j].key == key <==> arrivals[j].caller == c) && run[j].now == arrivals[j].now {
        KeyIsTheCallers(arrivals[j].caller, c);
      }
    }
    BucketCountsCaller(config, arrivals, c, key, lo, hi, n);
  }

  predicate InOrder(arrivals: seq<Arrival>) {
    forall j, k | 0 <= j < k < |arrivals| :: arrivals[j].now <= arrivals[k].now
  }

  /** Arrival `i` is let in exactly when fewer than `limit` of its caller's were, in the last `window` seconds. */
  predicate ExactWith(config: Config, arrivals: seq<Arrival>, i: nat, limit: int, window: int)
    requires i < |arrivals|
  {
    var c, now := arrivals[i].caller, arrivals[i].now;
    LetsIn(config, arrivals, i) <==> LetInFor(config, arrivals, c, now - window as real, now, i) < limit
  }

  lemma {:induction false} OwnBucketExactly(config: Config, arrivals: seq<Arrival>, i: nat, r: Request, limit: int,
                                            window: int)
    requires i < |arrivals| && AllValid(arrivals) && InOrder(arrivals) && r == AsRequests(arrivals)[i]
    requires config.LimitFor(r.role) == limit && config.WindowFor(r.role) == window
    ensures ExactWith(config, arrivals, i, limit, window)
  {
    var lo := r.now - window as real;
    assert LetInFor(config, arrivals, arrivals[i].caller, lo, r.now, i)
        == PassedIn(config, AsRequests(arrivals), r.key, lo, r.now, i) by {
      KeysCountCallers(config, arrivals, arrivals[i].caller, lo, r.now, i);
    }
    assert ExactAt(config, AsRequests(arrivals), i) by { EveryCallerIsLimitedExactly(config, arrivals, i); }
  }

  /**
   Whatever the settings and whoever else comes, a caller is let in exactly when
   fewer than its own setting of its own arrivals were let in during its own window.
   */
  lemma {:induction false} EveryCallerGetsItsOwnSetting(s: Settings, arrivals: seq<Arrival>, i: nat)
    requires Build(s).Some? && i < |arrivals| && AllValid(arrivals) && InOrder(arrivals)
    ensures var c := arrivals[i].caller;
      ExactWith(Build(s).value, arrivals, i, Promised(s, c), PromisedWindow(s, c))
  {
    var c, config, r := arrivals[i].caller, Build(s).value, AsRequests(arrivals)[i];
    EveryRoleHasItsOwn(s, c);
    assert r.role == c.Role();
    OwnBucketExactly(config, arrivals, i, r, Promised(s, c), PromisedWindow(s, c));
  }

  function AsArrivals(visits: seq<Visit>): (arrivals: seq<Arrival>)
    ensures |arrivals| == |visits|
    ensures forall i | 0 <= i < |visits| :: arrivals[i] == Arrival(visits[i].caller, visits[i].call.now)
  {
    seq(|visits|, i requires 0 <= i < |visits| => Arrival(visits[i].caller, visits[i].call.now))
  }

  /** The Redis limiter with the same settings lets in exactly the same, so it keeps the same promises. */
  lemma RedisLetsInTheSame(config: Config, prefix: string, visits: seq<Visit>, i: nat)
    requires i < |visits| && Orderly(AllCalls(AsHits(visits)))
    requires forall j | 0 <= j < |visits| :: visits[j].caller.Valid()
    ensures Decided(config, prefix, AsHits(visits))[i] == LetsIn(config, AsArrivals(visits), i)
  {
    VisitsKeepToOneRole(visits);
    BothLimitersAgree(config, prefix, AsHits(visits), i);
    assert InProcess(AsHits(visits)) == AsRequests(AsArrivals(visits));
  }
}
