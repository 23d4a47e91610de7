/**
 Runs put together from pieces: one delivery that nothing disturbs, every event
 that is still open, and so a way to log everything from any state. Handlers
 alone do it: Stripe changes nothing meanwhile and nobody joins.
 */
module MembershipRuns {
  import opened Collections
  import opened Wrappers
  import opened Memberships
  import opened MembershipProtocol
  import opened MembershipTrace
  import opened MembershipSteps
  import opened MembershipConvergence

  lemma {:induction false} RunsCompose(s: State, first: seq<Step>, m: State, second: seq<Step>, t: State)
    requires Runs(s, first, m) && Runs(m, second, t)
    ensures Runs(s, first + second, t)
    decreases |first|
  {
    if first == [] {
      assert first + second == second;
    } else {
      RunsCompose(Apply(s, first[0]), first[1..], m, second, t);
      assert (first + second)[1..] == first[1..] + second;
    }
  }

  /** One step more. */
  lemma Then(s: State, steps: seq<Step>, m: State, step: Step)
    requires Runs(s, steps, m) && Enabled(m, step)
    ensures Runs(s, steps + [step], Apply(m, step))
  {
    assert Runs(Apply(m, step), [], Apply(m, step));
    assert [step][1..] == [];
    RunsCompose(s, steps, m, [step], Apply(m, step));
  }

  lemma FirstThen(s: State, step: Step, rest: seq<Step>, t: State)
    requires Enabled(s, step) && Runs(Apply(s, step), rest, t)
    ensures Runs(s, [step] + rest, t)
  {
    assert ([step] + rest)[1..] == rest;
  }

  /** Only handlers move: neither Stripe nor a new account. */
  predicate HandlersOnly(steps: seq<Step>) {
    forall i | 0 <= i < |steps| :: HandlerStep(steps[i])
  }

  predicate NoChange(steps: seq<Step>) {
    forall i | 0 <= i < |steps| :: !steps[i].StripeChange?
  }

  lemma {:induction false} NoChangeAddsNoState(s: State, steps: seq<Step>, t: State, x: string, f: set<string>)
    requires NoChange(steps) && Runs(s, steps, t)
    ensures StatesOf(steps, x) == [] && Founders(s, steps, x, f) == f
    decreases |steps|
  {
    if steps != [] {
      NoChangeAddsNoState(Apply(s, steps[0]), steps[1..], t, x, f);
    }
  }

  lemma {:induction false} StatesCompose(first: seq<Step>, second: seq<Step>, x: string)
    ensures StatesOf(first + second, x) == StatesOf(first, x) + StatesOf(second, x)
    decreases |first|
  {
    if first == [] {
      assert first + second == second;
    } else {
      StatesCompose(first[1..], second, x);
      assert (first + second)[1..] == first[1..] + second && (first + second)[0] == first[0];
      Regroup(StatesOfStep(first[0], x), StatesOf(first[1..], x), StatesOf(second, x));
    }
  }

  lemma {:induction false} FoundersCompose(s: State, first: seq<Step>, m: State, second: seq<Step>, x: string, f: set<string>)
    requires Runs(s, first, m)
    ensures Founders(s, first + second, x, f) == Founders(m, second, x, Founders(s, first, x, f))
    decreases |first|
  {
    if first == [] {
      assert first + second == second;
    } else {
      FoundersCompose(Apply(s, first[0]), first[1..], m, second, x, NextFounders(s, first[0], x, f));
      assert (first + second)[1..] == first[1..] + second;
    }
  }

  // One handler

  function With(s: State, h: nat, event: string, target: Target, now: int, phase: Phase): State {
    s.(handlers := s.handlers[h := Handler(event, target, now, phase)])
  }

  lemma AdvanceWith(s: State, h: nat, event: string, target: Target, now: int, phase: Phase, next: Phase)
    ensures Advance(With(s, h, event, target, now, phase), h, next) == With(s, h, event, target, now, next)
  {
    assert s.handlers[h := Handler(event, target, now, phase)][h := Handler(event, target, now, next)]
        == s.handlers[h := Handler(event, target, now, next)];
  }

  /** `e` is open, and nobody has the number `h`. */
  predicate Deliverable(s: State, h: nat, event: string) {
    h !in s.handlers && event != "" && event in s.sent && event !in s.log
  }

  /** ...and is about a subscription Stripe knows. */
  predicate About(s: State, h: nat, event: string, x: string) {
    Deliverable(s, h, event) && s.sent[event].target == Of(x) && x in s.live
  }

  /** Where the log check leads. */
  function Checked(target: Target): Phase {
    match target
    case NotOurs => Logging(Ignored, None)
    case NoSubscription => Logging(Unmatched, None)
    case Of(_) => NotSeen
  }

  lemma Arrives(s: State, h: nat, event: string, now: int)
    requires Deliverable(s, h, event)
    ensures var target := s.sent[event].target;
      Runs(s, [Deliver(h, event, now)] + [CheckLog(h)], With(s, h, event, target, now, Checked(target)))
  {
    var target := s.sent[event].target;
    assert Runs(s, [], s);
    assert [] + [Deliver(h, event, now)] == [Deliver(h, event, now)];
    Then(s, [], s, Deliver(h, event, now));
    var s1 := With(s, h, event, target, now, Begun);
    assert Delivered(s, h, event, now) == s1;
    AdvanceWith(s, h, event, target, now, Begun, Checked(target));
    Then(s, [Deliver(h, event, now)], s1, CheckLog(h));
  }

  function Seeing(h: nat, event: string, now: int): seq<Step> {
    [Deliver(h, event, now)] + [CheckLog(h)] + [FirstRead(h)] + [Resolve(h)]
  }

  /** Where resolving the account leads. */
  function Found(owner: Option<string>): Phase {
    if owner.None? then Logging(Unmatched, None) else Resolved(owner.value)
  }

  lemma Resolves(s: State, h: nat, event: string, x: string, now: int)
    requires About(s, h, event, x)
    ensures Runs(s, Seeing(h, event, now), With(s, h, event, Of(x), now, Found(Owner(s, x))))
  {
    var first := s.live[x].sub;
    Arrives(s, h, event, now);
    var s2 := With(s, h, event, Of(x), now, NotSeen);
    AdvanceWith(s, h, event, Of(x), now, NotSeen, ReadOnce(first));
    Then(s, [Deliver(h, event, now)] + [CheckLog(h)], s2, FirstRead(h));
    var s3 := With(s, h, event, Of(x), now, ReadOnce(first));
    AdvanceWith(s, h, event, Of(x), now, ReadOnce(first), Found(Owner(s, x)));
    Then(s, [Deliver(h, event, now)] + [CheckLog(h)] + [FirstRead(h)], s3, Resolve(h));
  }

  /** No lock without its handler. */
  predicate LocksHeld(s: State) {
    forall a | a in s.locks :: s.locks[a] in s.handlers
  }

  /** Logging the event ends the handler and leaves everything else. */
  lemma OnlyLogs(s: State, h: nat, event: string, target: Target, now: int, outcome: Outcome, named: Option<string>)
    requires Deliverable(s, h, event) && LocksHeld(s)
    ensures var m := With(s, h, event, target, now, Logging(outcome, named));
      Enabled(m, LogOnly(h)) && OnlyLogged(m, h) == s.(log := s.log[event := Logged(outcome, named)])
  {
    var m := With(s, h, event, target, now, Logging(outcome, named));
    assert m.handlers - {h} == s.handlers;
    assert (map a | a in s.locks && s.locks[a] != h :: s.locks[a]) == s.locks;
  }

  // Inside the lock

  /** The handler is resolved to `a`, and the lock of `a` is free. */
  predicate AtTheLock(s: State, h: nat, x: string, a: string) {
    && h in s.handlers && s.handlers[h].target == Of(x) && s.handlers[h].phase == Resolved(a)
    && x in s.live && a in s.users && a !in s.locks
  }

  /** It has taken the lock and read again. */
  function Looked(s: State, h: nat, x: string, a: string): State
    requires AtTheLock(s, h, x, a)
  {
    s.(handlers := s.handlers[h := s.handlers[h].(phase := ReadTwice(a, s.live[x].sub, s.live[x].version))],
    locks := s.locks[a := h])
  }

  lemma Looks(s: State, h: nat, x: string, a: string)
    requires AtTheLock(s, h, x, a)
    ensures Runs(s, [Lock(h)] + [SecondRead(h)], Looked(s, h, x, a))
  {
    var s1 := LockTaken(s, h);
    assert Runs(s, [], s);
    assert [] + [Lock(h)] == [Lock(h)];
    Then(s, [], s, Lock(h));
    Then(s, [Lock(h)], s1, SecondRead(h));
    assert s1.handlers[h := s1.handlers[h].(phase := ReadTwice(a, s.live[x].sub, s.live[x].version))]
        == s.handlers[h := s.handlers[h].(phase := ReadTwice(a, s.live[x].sub, s.live[x].version))];
  }

  /** The handler has read inside the lock and its event is still open. */
  predicate AtTheRow(s: State, h: nat, x: string) {
    h in s.handlers && s.handlers[h].target == Of(x) && s.handlers[h].phase.ReadTwice? && s.handlers[h].event !in s.log
  }

  /** The row it leaves. */
  function StoredRow(s: State, h: nat, x: string): Row
    requires AtTheRow(s, h, x)
  {
    var hd, p := s.handlers[h], s.handlers[h].phase;
    Stored(if x in s.rows then s.rows[x] else NewRow(p.account, hd.now), p.sub, hd.now, s.graceDays)
  }

  function OutcomeOf(claimed: Option<string>, account: string): Outcome {
    if claimed == Some(account) then Outcome.Applied else AppliedAccountMismatch
  }

  function Written(s: State, h: nat, x: string): State
    requires AtTheRow(s, h, x)
  {
    var hd, p, m := s.handlers[h], s.handlers[h].phase, StoredRow(s, h, x);
    Finish(
      s.(rows := s.rows[x := m], rowVersion := s.rowVersion[x := p.version],
      log := s.log[hd.event := Logged(OutcomeOf(p.sub.claimed, m.account), Some(m.account))],
      history := s.history + [Effect(hd.event, x, Observation(p.sub, hd.now), p.version)]), h)
  }

  lemma CommitsItsRead(s: State, h: nat, x: string)
    requires AtTheRow(s, h, x)
    ensures Enabled(s, ReadRow(h)) && Enabled(RowReadDone(s, h), Step.Commit(h))
    ensures Committed(RowReadDone(s, h), h) == Written(s, h, x)
  {
    var r := RowReadDone(s, h);
    assert r.handlers - {h} == s.handlers - {h};
    assert Lookup(s.rows, x).Some? <==> x in s.rows;
  }

  lemma Writing(s: State, h: nat, x: string)
    requires AtTheRow(s, h, x)
    ensures Runs(s, [ReadRow(h)] + [Step.Commit(h)], Written(s, h, x))
  {
    CommitsItsRead(s, h, x);
    assert Runs(s, [], s);
    assert [] + [ReadRow(h)] == [ReadRow(h)];
    Then(s, [], s, ReadRow(h));
    Then(s, [ReadRow(h)], RowReadDone(s, h), Step.Commit(h));
  }

  // One delivery that nothing disturbs

  /** No account that a handler could resolve to is locked. */
  ghost predicate Unlocked(s: State) {
    forall y, a | Owner(s, y) == Some(a) && a in s.users :: a !in s.locks
  }

  /** What a whole delivery leaves alone. */
  ghost predicate OnlyBooks(s: State, t: State) {
    && t.graceDays == s.graceDays && t.live == s.live && t.sent == s.sent && t.users == s.users
    && t.locks == s.locks && t.handlers == s.handlers && s.history <= t.history
    && s.log.Keys <= t.log.Keys && s.rows.Keys <= t.rows.Keys
    && (forall y :: Owner(t, y) == Owner(s, y))
    && (forall y | !OwnerIsHere(s, y) :: Lookup(t.rows, y) == Lookup(s.rows, y))
  }

  predicate OwnerIsHere(s: State, y: string) {
    Owner(s, y).Some? && Owner(s, y).value in s.users
  }

  lemma OnlyBooksCompose(s: State, m: State, t: State)
    requires OnlyBooks(s, m) && OnlyBooks(m, t)
    ensures OnlyBooks(s, t)
  {
    forall y | !OwnerIsHere(s, y) ensures Lookup(t.rows, y) == Lookup(s.rows, y) {
      assert Owner(m, y) == Owner(s, y) && !OwnerIsHere(m, y);
    }
  }

  lemma LogsUnread(s: State, h: nat, event: string, now: int) returns (steps: seq<Step>, t: State)
    requires Deliverable(s, h, event) && LocksHeld(s) && !s.sent[event].target.Of?
    ensures Runs(s, steps, t) && HandlersOnly(steps) && OnlyBooks(s, t) && t.log.Keys == s.log.Keys + {event}
  {
    var target := s.sent[event].target;
    var phase := Checked(target);
    Arrives(s, h, event, now);
    OnlyLogs(s, h, event, target, now, phase.outcome, phase.named);
    var m := With(s, h, event, target, now, phase);
    Then(s, [Deliver(h, event, now)] + [CheckLog(h)], m, LogOnly(h));
    steps, t := [Deliver(h, event, now)] + [CheckLog(h)] + [LogOnly(h)], OnlyLogged(m, h);
  }

  lemma LogsUnnamed(s: State, h: nat, event: string, x: string, now: int) returns (steps: seq<Step>, t: State)
    requires About(s, h, event, x) && LocksHeld(s) && Owner(s, x).None?
    ensures Runs(s, steps, t) && HandlersOnly(steps) && OnlyBooks(s, t) && t.log.Keys == s.log.Keys + {event}
  {
    Resolves(s, h, event, x, now);
    OnlyLogs(s, h, event, Of(x), now, Unmatched, None);
    var m := With(s, h, event, Of(x), now, Logging(Unmatched, None));
    Then(s, Seeing(h, event, now), m, LogOnly(h));
    steps, t := Seeing(h, event, now) + [LogOnly(h)], OnlyLogged(m, h);
  }

  lemma LocksNobody(s: State, h: nat, event: string, x: string, now: int, a: string)
    requires About(s, h, event, x) && a !in s.users
    ensures var r := With(s, h, event, Of(x), now, Resolved(a));
      Enabled(r, Lock(h)) && LockTaken(r, h) == With(s, h, event, Of(x), now, Logging(Unmatched, Some(a)))
  {
    AdvanceWith(s, h, event, Of(x), now, Resolved(a), Logging(Unmatched, Some(a)));
  }

  lemma ReachesNobody(s: State, h: nat, event: string, x: string, now: int, a: string)
    requires About(s, h, event, x) && Owner(s, x) == Some(a) && a !in s.users
    ensures Runs(s, Seeing(h, event, now) + [Lock(h)], With(s, h, event, Of(x), now, Logging(Unmatched, Some(a))))
  {
    Resolves(s, h, event, x, now);
    LocksNobody(s, h, event, x, now, a);
    Then(s, Seeing(h, event, now), With(s, h, event, Of(x), now, Resolved(a)), Lock(h));
  }

  lemma LogsUnknown(s: State, h: nat, event: string, x: string, now: int) returns (steps: seq<Step>, t: State)
    requires About(s, h, event, x) && LocksHeld(s) && Owner(s, x).Some? && Owner(s, x).value !in s.users
    ensures Runs(s, steps, t) && HandlersOnly(steps) && OnlyBooks(s, t) && t.log.Keys == s.log.Keys + {event}
  {
    var a := Owner(s, x).value;
    var m := With(s, h, event, Of(x), now, Logging(Unmatched, Some(a)));
    ReachesNobody(s, h, event, x, now, a);
    OnlyLogs(s, h, event, Of(x), now, Unmatched, Some(a));
    Then(s, Seeing(h, event, now) + [Lock(h)], m, LogOnly(h));
    steps, t := Seeing(h, event, now) + [Lock(h)] + [LogOnly(h)], OnlyLogged(m, h);
  }

  /** The state after an undisturbed delivery to an account that is here. */
  function Bound(s: State, h: nat, event: string, x: string, now: int): State
    requires About(s, h, event, x) && OwnerIsHere(s, x) && Owner(s, x).value !in s.locks
  {
    var r := With(s, h, event, Of(x), now, Resolved(Owner(s, x).value));
    Written(Looked(r, h, x, Owner(s, x).value), h, x)
  }

  function Binding(h: nat, event: string, now: int): seq<Step> {
    Seeing(h, event, now) + ([Lock(h)] + [SecondRead(h)]) + ([ReadRow(h)] + [Step.Commit(h)])
  }

  lemma BindingRuns(s: State, h: nat, event: string, x: string, now: int)
    requires About(s, h, event, x) && OwnerIsHere(s, x) && Owner(s, x).value !in s.locks
    ensures Runs(s, Binding(h, event, now), Bound(s, h, event, x, now))
  {
    var a := Owner(s, x).value;
    var r := With(s, h, event, Of(x), now, Resolved(a));
    var m := Looked(r, h, x, a);
    Resolves(s, h, event, x, now);
    Looks(r, h, x, a);
    RunsCompose(s, Seeing(h, event, now), r, [Lock(h)] + [SecondRead(h)], m);
    Writing(m, h, x);
    RunsCompose(s, Seeing(h, event, now) + ([Lock(h)] + [SecondRead(h)]), m, [ReadRow(h)] + [Step.Commit(h)], Written(m, h, x));
  }

  lemma BoundFreesTheLock(s: State, h: nat, event: string, x: string, now: int)
    requires About(s, h, event, x) && LocksHeld(s) && OwnerIsHere(s, x) && Owner(s, x).value !in s.locks
    ensures var t := Bound(s, h, event, x, now); t.handlers == s.handlers && t.locks == s.locks
  {
    var a, t := Owner(s, x).value, Bound(s, h, event, x, now);
    assert t.handlers == s.handlers;
    assert forall b | b in s.locks :: s.locks[b] != h && b != a;
    assert t.locks == s.locks;
  }

  lemma BoundLeavesTheRest(s: State, h: nat, event: string, x: string, now: int)
    requires About(s, h, event, x) && OwnerIsHere(s, x) && Owner(s, x).value !in s.locks
    ensures var t := Bound(s, h, event, x, now);
      && t.log.Keys == s.log.Keys + {event} && t.graceDays == s.graceDays
      && t.live == s.live && t.sent == s.sent && t.users == s.users
  {
  }

  predicate AppliedHere(s: State, t: State, event: string, x: string) {
    && event in t.log && (t.log[event].outcome.Applied? || t.log[event].outcome.AppliedAccountMismatch?)
    && x in t.rows && x in s.live && t.live == s.live && Agrees(t.rows[x], s.live[x].sub)
  }

  lemma BoundIsBooked(s: State, h: nat, event: string, x: string, now: int)
    requires About(s, h, event, x) && LocksHeld(s) && OwnerIsHere(s, x) && Owner(s, x).value !in s.locks
    ensures OnlyBooks(s, Bound(s, h, event, x, now))
  {
    BoundFreesTheLock(s, h, event, x, now);
    BoundLeavesTheRest(s, h, event, x, now);
  }

  /** Progress: an event that is delivered and not disturbed is applied, and its row then agrees with Stripe. */
  lemma UndisturbedDeliveryApplies(s: State, h: nat, event: string, x: string, now: int)
    returns (steps: seq<Step>, t: State)
    requires About(s, h, event, x) && OwnerIsHere(s, x) && Owner(s, x).value !in s.locks
    ensures Runs(s, steps, t) && AppliedHere(s, t, event, x)
  {
    BindingRuns(s, h, event, x, now);
    steps, t := Binding(h, event, now), Bound(s, h, event, x, now);
  }

  lemma BindsQuietly(s: State, h: nat, event: string, x: string, now: int) returns (steps: seq<Step>, t: State)
    requires About(s, h, event, x) && LocksHeld(s) && OwnerIsHere(s, x) && Owner(s, x).value !in s.locks
    ensures Runs(s, steps, t) && HandlersOnly(steps) && OnlyBooks(s, t) && t.log.Keys == s.log.Keys + {event}
  {
    BindingRuns(s, h, event, x, now);
    BoundLeavesTheRest(s, h, event, x, now);
    BoundIsBooked(s, h, event, x, now);
    steps, t := Binding(h, event, now), Bound(s, h, event, x, now);
  }

  /** Whatever the event is about, delivering it alone logs it and changes nothing but the books. */
  lemma QuietDelivery(s: State, h: nat, event: string, now: int) returns (steps: seq<Step>, t: State)
    requires Deliverable(s, h, event) && LocksHeld(s) && Unlocked(s)
    requires s.sent[event].target.Of? ==> s.sent[event].target.sub in s.live
    ensures Runs(s, steps, t) && HandlersOnly(steps) && OnlyBooks(s, t) && t.log.Keys == s.log.Keys + {event}
  {
    if !s.sent[event].target.Of? {
      steps, t := LogsUnread(s, h, event, now);
    } else {
      var x := s.sent[event].target.sub;
      var owner := Owner(s, x);
      if owner.None? {
        steps, t := LogsUnnamed(s, h, event, x, now);
      } else if owner.value !in s.users {
        steps, t := LogsUnknown(s, h, event, x, now);
      } else {
        steps, t := BindsQuietly(s, h, event, x, now);
      }
    }
  }

  // Every open event

  function Open(s: State, skip: set<string>): set<string> {
    s.sent.Keys - s.log.Keys - skip - {""}
  }

  predicate TargetsLive(s: State) {
    forall e | e in s.sent && s.sent[e].target.Of? :: s.sent[e].target.sub in s.live
  }

  ghost predicate Ready(s: State) {
    LocksHeld(s) && Unlocked(s) && TargetsLive(s)
  }

  /** Handlers alone lead from `s` to `t`, and only the books differ. */
  ghost predicate Quietly(s: State, steps: seq<Step>, t: State) {
    Runs(s, steps, t) && HandlersOnly(steps) && OnlyBooks(s, t)
  }

  lemma QuietlyCompose(s: State, first: seq<Step>, m: State, rest: seq<Step>, t: State)
    requires Quietly(s, first, m) && Quietly(m, rest, t)
    ensures Quietly(s, first + rest, t)
  {
    RunsCompose(s, first, m, rest, t);
    OnlyBooksCompose(s, m, t);
  }

  lemma NothingQuietly(s: State)
    ensures Quietly(s, [], s)
  {
  }

  lemma DeliverOne(s: State, skip: set<string>, h: nat, now: int, e: string) returns (steps: seq<Step>, t: State)
    requires Ready(s) && h !in s.handlers && e in Open(s, skip)
    ensures Quietly(s, steps, t) && Ready(t) && h !in t.handlers
    ensures Open(t, skip) == Open(s, skip) - {e} && t.log.Keys == s.log.Keys + {e}
  {
    steps, t := QuietDelivery(s, h, e, now);
  }

  lemma OneLess(before: set<string>, open: set<string>, e: string, after: set<string>)
    requires e in open && after == (before + {e}) + (open - {e})
    ensures after == before + open && |open - {e}| < |open|
  {
  }

  /** Delivers every open event but those to skip, one after the other. */
  lemma {:induction false} DeliverOpen(s: State, skip: set<string>, h: nat, now: int)
    returns (steps: seq<Step>, t: State)
    requires Ready(s) && h !in s.handlers
    ensures Quietly(s, steps, t) && t.log.Keys == s.log.Keys + Open(s, skip)
    decreases |Open(s, skip)|
  {
    if Open(s, skip) == {} {
      NothingQuietly(s);
      steps, t := [], s;
    } else {
      var e :| e in Open(s, skip);
      var first, m := DeliverOne(s, skip, h, now, e);
      OneLess(s.log.Keys, Open(s, skip), e, (s.log.Keys + {e}) + (Open(s, skip) - {e}));
      var rest;
      rest, t := DeliverOpen(m, skip, h, now);
      QuietlyCompose(s, first, m, rest, t);
      steps := first + rest;
    }
  }

  // Draining any state

  /** Everything but the handlers and their locks is as it was. */
  predicate SameButHandlers(s: State, t: State) {
    t.live == s.live && t.sent == s.sent && t.users == s.users && t.rows == s.rows && t.log == s.log
  }

  lemma FailOne(s: State, h: nat)
    requires Sound(s) && h in s.handlers
    ensures var m := Finish(s, h);
      Sound(m) && SameButHandlers(s, m) && |m.handlers.Keys| < |s.handlers.Keys|
  {
    FinishKeepsSound(s, h);
    assert Finish(s, h).handlers.Keys == s.handlers.Keys - {h};
  }

  lemma {:induction false} FailAll(s: State) returns (steps: seq<Step>, t: State)
    requires Sound(s)
    ensures Runs(s, steps, t) && HandlersOnly(steps) && Sound(t) && t.handlers == map[] && SameButHandlers(s, t)
    decreases |s.handlers.Keys|
  {
    if s.handlers == map[] {
      steps, t := [], s;
    } else {
      var h :| h in s.handlers.Keys;
      FailOne(s, h);
      var rest;
      rest, t := FailAll(Finish(s, h));
      FirstThen(s, Fail(h), rest, t);
      steps := [Fail(h)] + rest;
    }
  }

  lemma NoneOpenIsDrained(m: State, t: State)
    requires t.sent == m.sent && t.log.Keys == m.log.Keys + Open(m, {})
    ensures Drained(t)
  {
  }

  /** From an idle state the open events alone are delivered. */
  lemma DrainIdle(m: State) returns (steps: seq<Step>, t: State)
    requires Sound(m) && m.handlers == map[]
    ensures Runs(m, steps, t) && HandlersOnly(steps) && Drained(t)
    ensures t.live == m.live && t.sent == m.sent && t.users == m.users
  {
    steps, t := DeliverOpen(m, {}, 0, 0);
    NoneOpenIsDrained(m, t);
  }

  /**
   From every state that is ever reached the handlers alone can log every event:
   those under way fail and free their locks, then each open event is delivered.
   */
  lemma EveryStateCanBeDrained(graceDays: nat, before: seq<Step>, s: State)
    returns (steps: seq<Step>, t: State)
    requires Runs(Init(graceDays), before, s)
    ensures Runs(s, steps, t) && HandlersOnly(steps) && Drained(t)
    ensures t.live == s.live && t.sent == s.sent && t.users == s.users
  {
    EveryRunFits(graceDays, before, s, "");
    var first, m := FailAll(s);
    var rest;
    rest, t := DrainIdle(m);
    RunsCompose(s, first, m, rest, t);
    steps := first + rest;
  }

  lemma {:induction false} HandlersOnlyAreSteady(s: State, steps: seq<Step>, t: State)
    requires Runs(s, steps, t) && HandlersOnly(steps)
    ensures SteadyRun(s, steps)
    decreases |steps|
  {
    if steps != [] {
      HandlersOnlyAreSteady(Apply(s, steps[0]), steps[1..], t);
    }
  }

  lemma {:induction false} SteadyCompose(s: State, first: seq<Step>, m: State, second: seq<Step>)
    requires Runs(s, first, m) && SteadyRun(s, first) && SteadyRun(m, second)
    ensures SteadyRun(s, first + second)
    decreases |first|
  {
    if first == [] {
      assert first + second == second;
    } else {
      SteadyCompose(Apply(s, first[0]), first[1..], m, second);
      assert (first + second)[1..] == first[1..] + second;
    }
  }

  /** So a steady run can always go on, by handlers alone, to where every row agrees with Stripe. */
  lemma SteadyRunsSettle(graceDays: nat, before: seq<Step>, s: State) returns (steps: seq<Step>, t: State)
    requires Runs(Init(graceDays), before, s) && SteadyRun(Init(graceDays), before)
    ensures Runs(s, steps, t) && HandlersOnly(steps) && Drained(t)
    ensures forall x | x in t.rows :: x in t.live && Agrees(t.rows[x], t.live[x].sub)
  {
    steps, t := EveryStateCanBeDrained(graceDays, before, s);
    HandlersOnlyAreSteady(s, steps, t);
    RunsCompose(Init(graceDays), before, s, steps, t);
    SteadyCompose(Init(graceDays), before, s, steps);
    Convergence(graceDays, before + steps, t);
  }
}
