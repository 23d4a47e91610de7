/**
 Every caller of the limiter at once: which key and role each entry point uses,
 and the exact window for a run of requests over any mix of keys.
 */
module RateLimitKeys {
  import opened RateLimit

  /** Who is being limited. A digest is 32 characters of an HMAC in hex. */
  datatype Caller =
    | Visitor(digest: string)
    | UnknownClient
    | AllVisitors
    | SignedIn(userId: string)
    | Admin
    | Login(digest: string)
    | MagicLink(digest: string)
    | MagicLinkInterval(digest: string)
    | Notice(digest: string)
    | PasswordChange(userId: string)
  {
    predicate Valid() {
      match this
      case Visitor(d) => |d| == 32
      case SignedIn(u) => "usr_" <= u
      case _ => true
    }

    function Key(): string {
      match this
      case Visitor(d) => "demo_" + d
      case UnknownClient => "demo_unknown"
      case AllVisitors => "demo_global"
      case SignedIn(u) => u
      case Admin => "admin"
      case Login(d) => "authlogin_" + d
      case MagicLink(d) => "magiclink_" + d
      case MagicLinkInterval(d) => "mlinterval_" + d
      case Notice(d) => "notify_" + d
      case PasswordChange(u) => "pwchange_" + u
    }

    function Role(): string {
      match this
      case Visitor(_) => "demo_user"
      case UnknownClient => "demo_user"
      case AllVisitors => "global"
      case SignedIn(_) => "demo_user_registered"
      case Admin => "admin"
      case Login(_) => "auth_login"
      case MagicLink(_) => "magic_link"
      case MagicLinkInterval(_) => "magic_link_interval"
      case Notice(_) => "email_notice"
      case PasswordChange(_) => "password_change"
    }
  }

  /** The prefix of a key, read back. */
  function RoleOfKey(key: string): string {
    if key == "demo_global" then "global"
    else if "demo_" <= key then "demo_user"
    else if "usr_" <= key then "demo_user_registered"
    else if key == "admin" then "admin"
    else if "authlogin_" <= key then "auth_login"
    else if "magiclink_" <= key then "magic_link"
    else if "mlinterval_" <= key then "magic_link_interval"
    else if "notify_" <= key then "email_notice"
    else "password_change"
  }

  lemma PrefixedKeyNamesItsRole(c: Caller)
    requires c.Login? || c.MagicLink? || c.MagicLinkInterval? || c.Notice? || c.PasswordChange?
    ensures RoleOfKey(c.Key()) == c.Role()
  {
    var k := c.Key();
    match c
    case Login(_) => assert k[1] == 'u' && k[0] == 'a';
    case MagicLink(_) => assert k[0] == 'm' && k[1] == 'a';
    case MagicLinkInterval(_) => assert k[0] == 'm' && k[1] == 'l';
    case Notice(_) => assert k[0] == 'n';
    case PasswordChange(_) => assert k[0] == 'p';
  }

  lemma KeyNamesItsRole(c: Caller)
    requires c.Valid()
    ensures RoleOfKey(c.Key()) == c.Role()
  {
    var k := c.Key();
    match c
    case Visitor(d) => assert |k| == 37;
    case SignedIn(u) => assert k[0] == 'u';
    case Admin => assert k[0] == 'a';
    case UnknownClient => assert k[5] == 'u' && "demo_" <= k;
    case AllVisitors =>
    case _ => PrefixedKeyNamesItsRole(c);
  }

  /** The key prefixes keep the buckets apart: two callers with one key have one role. */
  lemma OneKeyOneRole(a: Caller, b: Caller)
    requires a.Valid() && b.Valid() && a.Key() == b.Key()
    ensures a.Role() == b.Role()
  {
    KeyNamesItsRole(a);
    KeyNamesItsRole(b);
  }

  // A run of the whole limiter

  datatype Request = Request(key: string, role: string, now: real)

  function DequeOf(buckets: map<string, seq<real>>, key: string): seq<real> {
    if key in buckets then buckets[key] else []
  }

  /** One request: what `RateLimiter.Check` does to the buckets. */
  function LimiterStep(config: Config, buckets: map<string, seq<real>>, r: Request): (bool, map<string, seq<real>>) {
    var c := CheckBucket(DequeOf(buckets, r.key), config.LimitFor(r.role), config.WindowFor(r.role), r.now);
    (c.ok, buckets[r.key := c.bucket])
  }

  function LimiterAfter(config: Config, run: seq<Request>): map<string, seq<real>> {
    if run == [] then map[]
    else LimiterStep(config, LimiterAfter(config, run[..|run| - 1]), run[|run| - 1]).1
  }

  function Passed(config: Config, run: seq<Request>, i: nat): bool
    requires i < |run|
  {
    LimiterStep(config, LimiterAfter(config, run[..i]), run[i]).0
  }

  /** How many of the first `n` requests passed under `key` at a time in `(lo, hi]`. */
  function PassedIn(config: Config, run: seq<Request>, key: string, lo: real, hi: real, n: nat): nat
    requires n <= |run|
  {
    if n == 0 then 0
    else PassedIn(config, run, key, lo, hi, n - 1) +
         if run[n - 1].key == key && Passed(config, run, n - 1) && lo < run[n - 1].now <= hi then 1 else 0
  }

  function TimesOf(run: seq<Request>, key: string): seq<real> {
    if run == [] then []
    else
      var last := run[|run| - 1];
      TimesOf(run[..|run| - 1], key) + (if last.key == key then [last.now] else [])
  }

  ghost predicate InTimeOrder(run: seq<Request>) {
    forall i, j | 0 <= i < j < |run| :: run[i].now <= run[j].now
  }

  ghost predicate OneRole(run: seq<Request>, key: string, role: string) {
    forall i | 0 <= i < |run| && run[i].key == key :: run[i].role == role
  }

  lemma {:induction false} TimesStayOrdered(run: seq<Request>, key: string, top: real)
    requires InTimeOrder(run) && (run != [] ==> run[|run| - 1].now <= top)
    ensures SortedUpTo(TimesOf(run, key), top)
    decreases |run|
  {
    if run != [] {
      TimesStayOrdered(run[..|run| - 1], key, run[|run| - 1].now);
    }
  }

  /** A key's deque is the deque of its own requests: other keys do not touch it. */
  lemma {:induction false} KeysAreIndependent(config: Config, run: seq<Request>, key: string, role: string)
    requires OneRole(run, key, role)
    ensures DequeOf(LimiterAfter(config, run), key)
         == BucketAfter(TimesOf(run, key), config.LimitFor(role), config.WindowFor(role))
    decreases |run|
  {
    if run != [] {
      var n := |run| - 1;
      KeysAreIndependent(config, run[..n], key, role);
      if run[n].key == key {
        AfterOneMore(TimesOf(run[..n], key), run[n].now, config.LimitFor(role), config.WindowFor(role));
      } else {
        assert TimesOf(run, key) == TimesOf(run[..n], key);
      }
    }
  }

  lemma {:induction false} PassedAreAccepted(config: Config, run: seq<Request>, key: string, role: string, lo: real,
                                             hi: real, n: nat)
    requires n <= |run| && OneRole(run, key, role)
    ensures var times := TimesOf(run[..n], key);
      PassedIn(config, run, key, lo, hi, n)
      == AcceptedIn(times, config.LimitFor(role), config.WindowFor(role), lo, hi, |times|)
  {
    if n > 0 {
      var limit, window := config.LimitFor(role), config.WindowFor(role);
      var before := TimesOf(run[..n - 1], key);
      assert run[..n][..n - 1] == run[..n - 1];
      PassedAreAccepted(config, run, key, role, lo, hi, n - 1);
      if run[n - 1].key == key {
        var times := TimesOf(run[..n], key);
        assert times == before + [run[n - 1].now];
        KeysAreIndependent(config, run[..n - 1], key, role);
        AfterOneMore(before, run[n - 1].now, limit, window);
        AcceptedInPrefix(before, times, limit, window, lo, hi, |before|);
      } else {
        assert TimesOf(run[..n], key) == before;
      }
    }
  }

  /** A request passes as it would if its key were the only one. */
  lemma PassedIsAccepted(config: Config, run: seq<Request>, i: nat)
    requires i < |run| && OneRole(run, run[i].key, run[i].role)
    ensures var r, before := run[i], TimesOf(run[..i], run[i].key);
      Passed(config, run, i)
      == Accepted(before + [r.now], config.LimitFor(r.role), config.WindowFor(r.role), |before|)
  {
    var r := run[i];
    KeysAreIndependent(config, run[..i], r.key, r.role);
    AfterOneMore(TimesOf(run[..i], r.key), r.now, config.LimitFor(r.role), config.WindowFor(r.role));
  }

  ghost predicate ExactAt(config: Config, run: seq<Request>, i: nat)
    requires i < |run|
  {
    var r := run[i];
    Passed(config, run, i)
    <==> PassedIn(config, run, r.key, r.now - config.WindowFor(r.role) as real, r.now, i) < config.LimitFor(r.role)
  }

  /**
   The exact window for the whole limiter: in any run over any mix of keys, a
   request passes if and only if fewer than its role's limit of its own key's
   passed requests lie in the window that ends now.
   */
  lemma {:induction false} LimiterIsExact(config: Config, run: seq<Request>, i: nat)
    requires i < |run| && InTimeOrder(run) && OneRole(run, run[i].key, run[i].role)
    ensures ExactAt(config, run, i)
  {
    var r := run[i];
    var limit, window := config.LimitFor(r.role), config.WindowFor(r.role);
    var lo := r.now - window as real;
    var before := TimesOf(run[..i], r.key);
    var times := before + [r.now];
    PassedIsAccepted(config, run, i);
    PassedAreAccepted(config, run, r.key, r.role, lo, r.now, i);
    assert NonDecreasing(times) by {
      TimesStayOrdered(run[..i], r.key, r.now);
    }
    ExactWindow(times, limit, window, |before|);
    AcceptedInPrefix(before, times, limit, window, lo, r.now, |before|);
  }

  /** One arrival: which entry point, and when. */
  datatype Arrival = Arrival(caller: Caller, now: real)

  function AsRequests(arrivals: seq<Arrival>): (run: seq<Request>)
    ensures |run| == |arrivals|
    ensures forall i | 0 <= i < |run| :: run[i] == Request(arrivals[i].caller.Key(), arrivals[i].caller.Role(), arrivals[i].now)
  {
    seq(|arrivals|, i requires 0 <= i < |arrivals| =>
      Request(arrivals[i].caller.Key(), arrivals[i].caller.Role(), arrivals[i].now))
  }

  lemma CallersKeepToOneRole(arrivals: seq<Arrival>, i: nat)
    requires i < |arrivals|
    requires forall j | 0 <= j < |arrivals| :: arrivals[j].caller.Valid()
    ensures var run := AsRequests(arrivals); OneRole(run, run[i].key, run[i].role)
  {
    var run := AsRequests(arrivals);
    forall j | 0 <= j < |run| && run[j].key == run[i].key ensures run[j].role == run[i].role {
      OneKeyOneRole(arrivals[j].caller, arrivals[i].caller);
    }
  }

  /** The application's own callers meet the one-role hypothesis, so every one of them gets the exact window. */
  lemma EveryCallerIsLimitedExactly(config: Config, arrivals: seq<Arrival>, i: nat)
    requires i < |arrivals|
    requires forall j | 0 <= j < |arrivals| :: arrivals[j].caller.Valid()
    requires InTimeOrder(AsRequests(arrivals))
    ensures ExactAt(config, AsRequests(arrivals), i)
  {
    CallersKeepToOneRole(arrivals, i);
    LimiterIsExact(config, AsRequests(arrivals), i);
  }
}
