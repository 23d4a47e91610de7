/**
 Runs built to order: Stripe takes a subscription through given states while one
 handler or two wait, and the older read is committed last. A `Plan` says which
 states, who has joined, at which states the handlers read and whose locks they
 take; `WholeRun` is the run of a plan.
 */
module MembershipTimeline {
  import opened Wrappers
  import opened Memberships
  import opened MembershipProtocol
  import opened MembershipTrace
  import opened MembershipConvergence
  import opened MembershipRuns

  // Runs, with what they add

  /** `steps` leads from `s` to `t`, gives `x` these states, and leaves `after` as its founders. */
  predicate Plays(x: string, s: State, f: set<string>, steps: seq<Step>, t: State, states: seq<Subscription>, after: set<string>) {
    Runs(s, steps, t) && StatesOf(steps, x) == states && Founders(s, steps, x, f) == after
  }

  lemma PlaysOn(x: string, s: State, f: set<string>, first: seq<Step>, m: State, states: seq<Subscription>, g: set<string>,
                second: seq<Step>, t: State, more: seq<Subscription>, h: set<string>)
    requires Plays(x, s, f, first, m, states, g) && Plays(x, m, g, second, t, more, h)
    ensures Plays(x, s, f, first + second, t, states + more, h)
  {
    RunsCompose(s, first, m, second, t);
    StatesCompose(first, second, x);
    FoundersCompose(s, first, m, second, x, f);
  }

  lemma PlaysQuietly(x: string, s: State, f: set<string>, steps: seq<Step>, t: State)
    requires Runs(s, steps, t) && NoChange(steps)
    ensures Plays(x, s, f, steps, t, [], f)
  {
    NoChangeAddsNoState(s, steps, t, x, f);
  }

  lemma {:induction false} JoinAll(s: State, users: set<string>) returns (steps: seq<Step>)
    ensures Runs(s, steps, s.(users := s.users + users)) && NoChange(steps)
    decreases |users|
  {
    if users == {} {
      steps := [];
      assert s.users + users == s.users;
    } else {
      var u :| u in users;
      var m := Joined(s, u);
      var rest := JoinAll(m, users - {u});
      steps := [UserJoins(u)] + rest;
      assert steps[1..] == rest;
      assert m.users + (users - {u}) == s.users + users;
    }
  }

  // A time line: Stripe goes through its states while up to two handlers wait

  datatype Other = Other(j: nat, b: string)

  /**
   Handler 0 first reads state `i`, which names `a`, and reads again under the
   lock of `a` at state `m`. Handler 1, if any, first reads state `j`, which names
   `b`, and waits at the lock.
   */
  datatype Plan = Plan(graceDays: nat, x: string, states: seq<Subscription>, users: set<string>,
                       i: nat, m: nat, a: string, other: Option<Other>)

  predicate Playable(p: Plan) {
    && p.i <= p.m
    && (p.i < |p.states| ==> Names(p.states, p.i, p.a) && p.a in p.users)
    && (p.other.Some? ==> Names(p.states, p.other.value.j, p.other.value.b)
                          && p.other.value.b in p.users && p.other.value.b != p.a)
  }

  function EventId(k: nat): string {
    seq(k + 1, _ => 'e')
  }

  function SentUpTo(x: string, c: nat): map<string, Notice> {
    if c == 0 then map[] else SentUpTo(x, c - 1)[EventId(c - 1) := Notice(Of(x), c - 1)]
  }

  lemma {:induction false} SentAre(x: string, c: nat, e: string)
    ensures e in SentUpTo(x, c) <==> exists k: nat | k < c :: e == EventId(k)
    ensures e in SentUpTo(x, c) ==> 0 < |e| <= c && SentUpTo(x, c)[e] == Notice(Of(x), |e| - 1)
  {
    if c > 0 {
      SentAre(x, c - 1, e);
      assert |EventId(c - 1)| == c;
    }
  }

  function LiveAt(p: Plan, c: nat): map<string, Live>
    requires c <= |p.states|
  {
    if c == 0 then map[] else map[p.x := Live(p.states[c - 1], c - 1)]
  }

  function First(p: Plan, phase: Phase): Handler {
    Handler(EventId(p.i), Of(p.x), 0, phase)
  }

  function Second(p: Plan): Handler
    requires p.other.Some?
  {
    Handler(EventId(p.other.value.j), Of(p.x), 0, Resolved(p.other.value.b))
  }

  function Reading(p: Plan): Phase
    requires p.m < |p.states|
  {
    ReadTwice(p.a, p.states[p.m], p.m)
  }

  /** The handlers at work once `c` states are live. */
  function Crew(p: Plan, c: nat): map<nat, Handler>
    requires c <= |p.states|
  {
    var first := if c > p.m then map[0 := First(p, Reading(p))]
                 else if c > p.i then map[0 := First(p, Resolved(p.a))] else map[];
    if p.other.Some? && c > p.other.value.j then first[1 := Second(p)] else first
  }

  function LocksAt(p: Plan, c: nat): map<string, nat> {
    if c > p.m then map[p.a := 0] else map[]
  }

  /** `c` states are live, with these handlers and locks, and nothing is stored or logged. */
  function Scene(p: Plan, c: nat, crew: map<nat, Handler>, locks: map<string, nat>): State
    requires c <= |p.states|
  {
    State(p.graceDays, LiveAt(p, c), SentUpTo(p.x, c), p.users, map[], map[], map[], locks, crew, [])
  }

  function At(p: Plan, c: nat): State
    requires c <= |p.states|
  {
    Scene(p, c, Crew(p, c), LocksAt(p, c))
  }

  // One state more: Stripe changes, handler 0 arrives, handler 0 looks, handler 1 arrives

  function CrewArrived(p: Plan, c: nat): map<nat, Handler>
    requires c < |p.states|
  {
    if c == p.i then Crew(p, c)[0 := First(p, Resolved(p.a))] else Crew(p, c)
  }

  function CrewLooked(p: Plan, c: nat): map<nat, Handler>
    requires c < |p.states|
  {
    if c == p.m then CrewArrived(p, c)[0 := First(p, Reading(p))] else CrewArrived(p, c)
  }

  lemma StripeMoves(p: Plan, c: nat)
    requires c < |p.states|
    ensures var step := StripeChange(p.x, p.states[c], EventId(c));
      Enabled(At(p, c), step) && Apply(At(p, c), step) == Scene(p, c + 1, Crew(p, c), LocksAt(p, c))
  {
    SentAre(p.x, c, EventId(c));
    assert |EventId(c)| == c + 1;
    assert ChangedByStripe(At(p, c), p.x, p.states[c], EventId(c)).live == LiveAt(p, c + 1);
  }

  lemma FirstArrives(p: Plan, c: nat) returns (steps: seq<Step>)
    requires c < |p.states| && Playable(p)
    ensures HandlersOnly(steps)
    ensures Runs(Scene(p, c + 1, Crew(p, c), LocksAt(p, c)), steps, Scene(p, c + 1, CrewArrived(p, c), LocksAt(p, c)))
  {
    var s := Scene(p, c + 1, Crew(p, c), LocksAt(p, c));
    if c == p.i {
      Resolves(s, 0, EventId(c), p.x, 0);
      steps := Seeing(0, EventId(c), 0);
    } else {
      steps := [];
    }
  }

  lemma FirstLooks(p: Plan, c: nat) returns (steps: seq<Step>)
    requires c < |p.states| && Playable(p)
    ensures HandlersOnly(steps)
    ensures Runs(Scene(p, c + 1, CrewArrived(p, c), LocksAt(p, c)), steps, Scene(p, c + 1, CrewLooked(p, c), LocksAt(p, c + 1)))
  {
    var s := Scene(p, c + 1, CrewArrived(p, c), LocksAt(p, c));
    if c == p.m {
      assert s.handlers[0] == First(p, Resolved(p.a));
      Looks(s, 0, p.x, p.a);
      assert s.handlers[0 := First(p, Reading(p))] == CrewLooked(p, c);
      steps := [Lock(0)] + [SecondRead(0)];
    } else {
      steps := [];
    }
  }

  lemma CrewGrows(p: Plan, c: nat)
    requires c < |p.states| && Playable(p)
    ensures Crew(p, c + 1) == if p.other.Some? && c == p.other.value.j then CrewLooked(p, c)[1 := Second(p)] else CrewLooked(p, c)
    ensures p.other.Some? && c == p.other.value.j ==> 1 !in CrewLooked(p, c)
  {
  }

  lemma SecondArrives(p: Plan, c: nat) returns (steps: seq<Step>)
    requires c < |p.states| && Playable(p)
    ensures HandlersOnly(steps)
    ensures Runs(Scene(p, c + 1, CrewLooked(p, c), LocksAt(p, c + 1)), steps, At(p, c + 1))
  {
    CrewGrows(p, c);
    var s := Scene(p, c + 1, CrewLooked(p, c), LocksAt(p, c + 1));
    if p.other.Some? && c == p.other.value.j {
      Resolves(s, 1, EventId(c), p.x, 0);
      steps := Seeing(1, EventId(c), 0);
    } else {
      steps := [];
    }
  }

  lemma OnlyHandlers(first: seq<Step>, second: seq<Step>, third: seq<Step>)
    requires HandlersOnly(first) && HandlersOnly(second) && HandlersOnly(third)
    ensures NoChange(first + second + third)
  {
  }

  lemma HandlersPlay(x: string, s: State, f: set<string>, first: seq<Step>, m: State, second: seq<Step>, n: State,
                     third: seq<Step>, t: State)
    requires Runs(s, first, m) && Runs(m, second, n) && Runs(n, third, t)
    requires HandlersOnly(first) && HandlersOnly(second) && HandlersOnly(third)
    ensures Plays(x, s, f, first + second + third, t, [], f)
  {
    RunsCompose(s, first, m, second, n);
    RunsCompose(s, first + second, n, third, t);
    OnlyHandlers(first, second, third);
    PlaysQuietly(x, s, f, first + second + third, t);
  }

  lemma OneStateMore(p: Plan, c: nat, f: set<string>) returns (steps: seq<Step>)
    requires c < |p.states| && Playable(p)
    ensures Plays(p.x, At(p, c), f, steps, At(p, c + 1), [p.states[c]], p.users)
  {
    StripeMoves(p, c);
    var change := StripeChange(p.x, p.states[c], EventId(c));
    var first := FirstArrives(p, c);
    var second := FirstLooks(p, c);
    var third := SecondArrives(p, c);
    var m := Scene(p, c + 1, Crew(p, c), LocksAt(p, c));
    HandlersPlay(p.x, m, p.users, first, Scene(p, c + 1, CrewArrived(p, c), LocksAt(p, c)),
                 second, Scene(p, c + 1, CrewLooked(p, c), LocksAt(p, c + 1)), third, At(p, c + 1));
    PlaysOn(p.x, At(p, c), f, [change], m, [p.states[c]], p.users, first + second + third, At(p, c + 1), [], p.users);
    assert [p.states[c]] + [] == [p.states[c]];
    steps := [change] + (first + second + third);
  }

  lemma OneStateOn(x: string, s: State, f: set<string>, first: seq<Step>, m: State, states: seq<Subscription>, c: nat,
                   g: set<string>, second: seq<Step>, t: State, h: set<string>)
    requires c < |states| && Plays(x, s, f, first, m, states[..c], g) && Plays(x, m, g, second, t, [states[c]], h)
    ensures Plays(x, s, f, first + second, t, states[..c + 1], h)
  {
    PlaysOn(x, s, f, first, m, states[..c], g, second, t, [states[c]], h);
    assert states[..c] + [states[c]] == states[..c + 1];
  }

  lemma LineGoesOn(p: Plan, c: nat, f: set<string>, before: seq<Step>, g: set<string>) returns (steps: seq<Step>)
    requires c < |p.states| && Playable(p) && Plays(p.x, At(p, 0), f, before, At(p, c), p.states[..c], g)
    ensures Plays(p.x, At(p, 0), f, steps, At(p, c + 1), p.states[..c + 1], p.users)
  {
    var last := OneStateMore(p, c, g);
    OneStateOn(p.x, At(p, 0), f, before, At(p, c), p.states, c, g, last, At(p, c + 1), p.users);
    steps := before + last;
  }

  lemma {:induction false} TimeLine(p: Plan, c: nat, f: set<string>) returns (steps: seq<Step>)
    requires c <= |p.states| && Playable(p)
    ensures Plays(p.x, At(p, 0), f, steps, At(p, c), p.states[..c], if c == 0 then f else p.users)
  {
    if c == 0 {
      steps := [];
    } else {
      var before := TimeLine(p, c - 1, f);
      steps := LineGoesOn(p, c - 1, f, before, if c == 1 then f else p.users);
    }
  }

  /** From the start: everybody joins, and Stripe goes through all its states. */
  lemma FromTheStart(p: Plan) returns (steps: seq<Step>)
    requires Playable(p) && p.states != []
    ensures Plays(p.x, Init(p.graceDays), {}, steps, At(p, |p.states|), p.states, p.users)
  {
    var joins := JoinAll(Init(p.graceDays), p.users);
    var s := Init(p.graceDays).(users := {} + p.users);
    assert {} + p.users == p.users;
    assert s == At(p, 0);
    PlaysQuietly(p.x, Init(p.graceDays), {}, joins, s);
    var line := TimeLine(p, |p.states|, {});
    assert p.states[..|p.states|] == p.states && [] + p.states == p.states;
    PlaysOn(p.x, Init(p.graceDays), {}, joins, At(p, 0), [], {}, line, At(p, |p.states|), p.states, p.users);
    steps := joins + line;
  }

  // The end: handler 1 binds the row if it is there, the other events are delivered, handler 0 commits its old read

  /** Stripe is done, handler 0 alone is at work inside its lock, and its event is open. */
  ghost predicate Poised(p: Plan, s: State) {
    && p.m < |p.states| && s.live == LiveAt(p, |p.states|) && s.sent == SentUpTo(p.x, |p.states|) && s.users == p.users
    && s.graceDays == p.graceDays && s.handlers == map[0 := First(p, Reading(p))] && s.locks == map[p.a := 0]
    && EventId(p.i) !in s.log && (OwnerIsHere(s, p.x) ==> Owner(s, p.x) != Some(p.a))
    && s.rows.Keys <= {p.x}
  }

  lemma PoisedIsReady(p: Plan, s: State)
    requires Poised(p, s)
    ensures Ready(s)
  {
    forall e | e in s.sent ensures s.sent[e].target == Of(p.x) { SentAre(p.x, |p.states|, e); }
    forall y, a | Owner(s, y) == Some(a) && a in s.users ensures a !in s.locks {
      assert y == p.x;
    }
  }

  lemma OthersAreLogged(p: Plan, s: State) returns (steps: seq<Step>, t: State)
    requires Poised(p, s)
    ensures Quietly(s, steps, t) && Poised(p, t) && t.log.Keys == s.log.Keys + Open(s, {EventId(p.i)})
  {
    PoisedIsReady(p, s);
    steps, t := DeliverOpen(s, {EventId(p.i)}, 2, 0);
    assert Owner(t, p.x) == Owner(s, p.x);
    forall y | y in t.rows ensures y == p.x {
      assert y != p.x ==> Owner(s, y) == None && !OwnerIsHere(s, y) && Lookup(t.rows, y) == Lookup(s.rows, y);
    }
  }

  lemma AllIsLogged(p: Plan, s: State, m: State, t: State)
    requires m.sent == s.sent && t.sent == s.sent && m.log.Keys == s.log.Keys + Open(s, {EventId(p.i)})
    requires t.log.Keys == m.log.Keys + {EventId(p.i)}
    ensures Drained(t)
  {
  }

  /** An overtaken commit: the last one of `x` stored an older read than an earlier one. */
  predicate Overtaken(t: State, x: string) {
    exists i, j | 0 <= i < j < |t.history| ::
      t.history[i].sub == x && t.history[j].sub == x && t.history[i].version > t.history[j].version
  }

  predicate EndsAt(p: Plan, t: State) {
    && t.users == p.users && Drained(t) && p.x in t.rows && p.m < |p.states| && Agrees(t.rows[p.x], p.states[p.m])
    && t.live == LiveAt(p, |p.states|)
  }

  lemma Finishes(p: Plan, s: State) returns (steps: seq<Step>, t: State)
    requires Poised(p, s) && p.i < |p.states|
    ensures Runs(s, steps, t) && HandlersOnly(steps) && EndsAt(p, t)
    ensures s.history != [] && s.history[0].sub == p.x && s.history[0].version > p.m ==> Overtaken(t, p.x)
  {
    var rest, m := OthersAreLogged(p, s);
    Writing(m, 0, p.x);
    t := Written(m, 0, p.x);
    RunsCompose(s, rest, m, [ReadRow(0)] + [Step.Commit(0)], t);
    steps := rest + ([ReadRow(0)] + [Step.Commit(0)]);
    AllIsLogged(p, s, m, t);
    if s.history != [] && s.history[0].sub == p.x && s.history[0].version > p.m {
      assert t.history[0] == s.history[0] && t.history[|m.history|].version == p.m;
    }
  }

  lemma SecondBinds(p: Plan) returns (steps: seq<Step>, t: State)
    requires Playable(p) && p.m + 1 < |p.states| && p.other.Some? && p.other.value.j != p.i
    ensures Runs(At(p, |p.states|), steps, t) && HandlersOnly(steps) && Poised(p, t)
    ensures |t.history| == 1 && t.history[0].sub == p.x && t.history[0].version == |p.states| - 1
  {
    var s, b := At(p, |p.states|), p.other.value.b;
    assert AtTheLock(s, 1, p.x, b);
    Looks(s, 1, p.x, b);
    var m := Looked(s, 1, p.x, b);
    Writing(m, 1, p.x);
    t := Written(m, 1, p.x);
    RunsCompose(s, [Lock(1)] + [SecondRead(1)], m, [ReadRow(1)] + [Step.Commit(1)], t);
    steps := [Lock(1)] + [SecondRead(1)] + ([ReadRow(1)] + [Step.Commit(1)]);
    SecondLeavesFirst(p);
  }

  lemma SecondLeavesFirst(p: Plan)
    requires Playable(p) && p.m + 1 < |p.states| && p.other.Some? && p.other.value.j != p.i
    requires AtTheLock(At(p, |p.states|), 1, p.x, p.other.value.b)
    ensures var m := Looked(At(p, |p.states|), 1, p.x, p.other.value.b);
      AtTheRow(m, 1, p.x) && Poised(p, Written(m, 1, p.x)) && Owner(Written(m, 1, p.x), p.x) == Some(p.other.value.b)
  {
    var s, b := At(p, |p.states|), p.other.value.b;
    var m := Looked(s, 1, p.x, b);
    var t := Written(m, 1, p.x);
    assert t.handlers == map[0 := First(p, Reading(p))];
    assert t.locks == map[p.a := 0];
    assert |EventId(p.i)| == p.i + 1 && |EventId(p.other.value.j)| == p.other.value.j + 1;
    assert t.log.Keys == {EventId(p.other.value.j)};
  }

  /** The whole run of a plan. */
  lemma WholeRun(p: Plan) returns (steps: seq<Step>, t: State)
    requires Playable(p) && p.m + 1 < |p.states|
    requires p.other.Some? ==> p.other.value.j != p.i
    requires p.other.None? && p.states[|p.states| - 1].claimed.Some? ==> p.states[|p.states| - 1].claimed.value !in p.users
    ensures Runs(Init(p.graceDays), steps, t) && StatesOf(steps, p.x) == p.states && EndsAt(p, t)
    ensures p.other.Some? ==> Overtaken(t, p.x)
  {
    var line := FromTheStart(p);
    var s := At(p, |p.states|);
    var bind, m := [], s;
    if p.other.Some? {
      bind, m := SecondBinds(p);
    }
    var rest;
    rest, t := Finishes(p, m);
    RunsCompose(s, bind, m, rest, t);
    PlaysQuietly(p.x, s, p.users, bind + rest, t);
    PlaysOn(p.x, Init(p.graceDays), {}, line, s, p.states, p.users, bind + rest, t, [], p.users);
    assert p.states + [] == p.states;
    steps := line + (bind + rest);
  }
}
