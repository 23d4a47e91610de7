/** When a row must agree with Stripe, and when a subscription must have one. */
module MembershipConvergence {
  import opened Wrappers
  import opened Memberships
  import opened MembershipProtocol
  import opened MembershipTrace
  import opened MembershipSteps

  // States that can leave a wrong row

  predicate Names(states: seq<Subscription>, k: nat, a: string) {
    k < |states| && states[k].claimed == Some(a)
  }

  /** One of the first `hi` states names `a`. */
  predicate Named(states: seq<Subscription>, hi: nat, a: string) {
    exists k: nat | k < hi :: Names(states, k, a)
  }

  /** A field that rows mirror is not the same. */
  predicate Differ(a: Subscription, b: Subscription) {
    !(a.Status() == b.Status() && a.interval == b.interval && a.customer == b.customer
      && a.PeriodEnd() == b.PeriodEnd() && a.Ending() == b.Ending())
  }

  predicate NamesAnother(states: seq<Subscription>, users: set<string>, a: string) {
    exists b | b in users && b != a :: Named(states, |states|, b)
  }

  /**
   Account `a` was named before state `m` was followed by a different last state,
   and either the last state does not name `a` or another account is named too.
   */
  predicate StraysAt(states: seq<Subscription>, users: set<string>, m: nat, a: string) {
    && m + 1 < |states| && a in users && Named(states, m + 1, a)
    && Differ(states[m], states[|states| - 1])
    && (states[|states| - 1].claimed != Some(a) || NamesAnother(states, users, a))
  }

  predicate CanStray(states: seq<Subscription>, users: set<string>) {
    exists m: nat, a | m < |states| && a in users :: StraysAt(states, users, m, a)
  }

  // From the invariant

  lemma EarlyIsNamed(t: Trace, hi: nat, a: string)
    requires EarlyClaim(t, hi, a)
    ensures Named(t.states, hi, a)
  {
    var k: nat :| k < hi && k < t.early && Claims(t, k, a);
    assert Names(t.states, k, a);
  }

  lemma EarlyIsNamedAtAll(t: Trace, a: string)
    requires EarlyClaim(t, t.early, a) && t.early <= |t.states|
    ensures Named(t.states, |t.states|, a)
  {
    var k: nat :| k < t.early && Claims(t, k, a);
    assert Names(t.states, k, a);
  }

  /** What the row's last reader has to be excused for once the newest event is settled. */
  lemma RowIsExcused(s: State, x: string, t: Trace, e: string) returns (a: string)
    requires Fits(s, x, t) && x in s.rows && x in s.live && Announces(s, e, x) && e in s.log
    requires !Agrees(s.rows[x], s.live[x].sub)
    ensures a in s.users && s.rowVersion[x] + 1 < |t.states| && EarlyClaim(t, s.rowVersion[x] + 1, a)
    ensures Excused(t, s.users, |t.states| - 1, a)
    ensures Differ(t.states[s.rowVersion[x]], t.states[|t.states| - 1])
  {
    a :| Knows(s, x, t, a, s.rowVersion[x]);
    assert Settles(s, x, e);
  }

  lemma ExcusedStrays(s: State, x: string, t: Trace, a: string)
    requires Fits(s, x, t) && x in s.rows && s.rowVersion[x] + 1 < |t.states|
    requires a in s.users && EarlyClaim(t, s.rowVersion[x] + 1, a) && Excused(t, s.users, |t.states| - 1, a)
    requires Differ(t.states[s.rowVersion[x]], t.states[|t.states| - 1])
    ensures CanStray(t.states, s.users)
  {
    EarlyIsNamed(t, s.rowVersion[x] + 1, a);
    if Rival(t, s.users, a) {
      var b :| b in s.users && RivalIs(t, s.users, a, b);
      EarlyIsNamedAtAll(t, b);
      assert NamesAnother(t.states, s.users, a);
    }
    assert StraysAt(t.states, s.users, s.rowVersion[x], a);
  }

  /**
   One half of the exact condition, for every run at all: a row that is wrong
   once every event is logged had states that can stray.
   */
  lemma WrongRowStrayed(graceDays: nat, steps: seq<Step>, s: State, x: string)
    requires Runs(Init(graceDays), steps, s) && Drained(s)
    requires x in s.rows && x in s.live && !Agrees(s.rows[x], s.live[x].sub)
    ensures CanStray(StatesOf(steps, x), s.users)
  {
    var t := TraceOf(graceDays, steps, x);
    EveryRunFits(graceDays, steps, s, x);
    var e :| Announces(s, e, x);
    var a := RowIsExcused(s, x, t, e);
    ExcusedStrays(s, x, t, a);
  }

  /** In a steady run a row agrees with Stripe, or an event for it is still to be logged. */
  lemma SteadyRowAgrees(graceDays: nat, steps: seq<Step>, s: State, x: string)
    requires Runs(Init(graceDays), steps, s) && SteadyRun(Init(graceDays), steps) && x in s.rows
    ensures x in s.live && (Agrees(s.rows[x], s.live[x].sub) || exists e :: Pending(s, e, x))
  {
    var t := TraceOf(graceDays, steps, x);
    EveryRunFits(graceDays, steps, s, x);
    var e :| Announces(s, e, x);
    if e in s.log && !Agrees(s.rows[x], s.live[x].sub) {
      var a := RowIsExcused(s, x, t, e);
      OneClaimExcusesNothing(t, s.users, |t.states| - 1, s.rowVersion[x] + 1, a);
    }
    assert e !in s.log ==> Pending(s, e, x);
  }

  /**
   Convergence: whatever the delivery order, the duplicates, the interleaving
   and the failures, a bound row agrees with Stripe or an event for it is still
   to be logged. Once every event is logged every row agrees.
   */
  lemma Convergence(graceDays: nat, steps: seq<Step>, t: State)
    requires Runs(Init(graceDays), steps, t) && SteadyRun(Init(graceDays), steps)
    ensures forall x | x in t.rows ::
              x in t.live && (Agrees(t.rows[x], t.live[x].sub) || exists e :: Pending(t, e, x))
    ensures Drained(t) ==> forall x | x in t.rows :: Agrees(t.rows[x], t.live[x].sub)
  {
    forall x | x in t.rows
      ensures x in t.live && (Agrees(t.rows[x], t.live[x].sub) || exists e :: Pending(t, e, x))
    {
      SteadyRowAgrees(graceDays, steps, t, x);
    }
  }

  // No paying account is left without a row

  /** Who was there when `x` last changed; `f` is who was there when it did before these steps. */
  function Founders(s: State, steps: seq<Step>, x: string, f: set<string>): set<string>
    decreases |steps|
  {
    if steps == [] || !Enabled(s, steps[0]) then f
    else Founders(Apply(s, steps[0]), steps[1..], x, NextFounders(s, steps[0], x, f))
  }

  function NextFounders(s: State, step: Step, x: string, f: set<string>): set<string> {
    if step.StripeChange? && step.x == x then s.users else f
  }

  /** While it has no row and names a founder, nothing has settled its newest event. */
  ghost predicate Vouched(s: State, x: string, f: set<string>) {
    && f <= s.users
    && (x in s.live && x !in s.rows && s.live[x].sub.claimed.Some? && s.live[x].sub.claimed.value in f ==>
          forall e | Settles(s, x, e) :: s.sent[e].version < s.live[x].version)
  }

  /** Settling an event without a row is fine when it is not the newest, or the newest names no founder. */
  lemma UnmatchedStaysVouched(s: State, x: string, f: set<string>, h: nat, named: Option<string>)
    requires h in s.handlers && s.handlers[h].event in s.sent && Vouched(s, x, f)
    requires x in s.live && s.live[x].sub.claimed.Some? && s.live[x].sub.claimed.value in f ==>
      s.sent[s.handlers[h].event].version < s.live[x].version
    ensures Vouched(Advance(s, h, Logging(Unmatched, named)), x, f)
  {
    var s2 := Advance(s, h, Logging(Unmatched, named));
    forall e | Settles(s2, x, e) ensures Settles(s, x, e) || e == s.handlers[h].event {
      if j :| j in s2.handlers && Logs(s2, j, e) { assert j != h ==> Logs(s, j, e); }
    }
  }

  lemma AdvanceStaysVouched(s: State, x: string, f: set<string>, h: nat, phase: Phase)
    requires Sound(s) && h in s.handlers && Vouched(s, x, f) && (!phase.Logging? || s.handlers[h].target != Of(x))
    ensures Vouched(Advance(s, h, phase), x, f)
  {
    AdvanceSettlesNoMore(s, h, phase, x);
  }

  lemma ResolveStaysVouched(s: State, x: string, t: Trace, f: set<string>, h: nat)
    requires Fits(s, x, t) && Enabled(s, Resolve(h)) && Vouched(s, x, f)
    ensures Vouched(AccountResolved(s, h), x, f)
  {
    var hd := s.handlers[h];
    assert HandlerFits(s, x, t, h);
    if hd.target == Of(x) && x !in s.rows && hd.phase.first.claimed.None? {
      var k: nat :| s.sent[hd.event].version <= k < |t.states| && IsState(t, k, hd.phase.first);
      UnmatchedStaysVouched(s, x, f, h, None);
    } else {
      AdvanceStaysVouched(s, x, f, h, AccountResolved(s, h).handlers[h].phase);
    }
  }

  lemma LockingStaysVouched(s: State, x: string, f: set<string>, h: nat)
    requires Sound(s) && Enabled(s, Lock(h)) && s.handlers[h].phase.account in s.users && Vouched(s, x, f)
    ensures Vouched(LockTaken(s, h), x, f)
  {
    AdvanceStaysVouched(s, x, f, h, Locked(s.handlers[h].phase.account));
    forall e | Settles(LockTaken(s, h), x, e) ensures Settles(s, x, e) {
      LockingSettlesNoMore(s, h, x, e);
    }
  }

  lemma LockStaysVouched(s: State, x: string, t: Trace, f: set<string>, h: nat)
    requires Fits(s, x, t) && Enabled(s, Lock(h)) && Vouched(s, x, f)
    ensures Vouched(LockTaken(s, h), x, f)
  {
    var hd := s.handlers[h];
    var account := hd.phase.account;
    assert HandlerFits(s, x, t, h);
    if account in s.users {
      LockingStaysVouched(s, x, f, h);
    } else if hd.target != Of(x) {
      AdvanceStaysVouched(s, x, f, h, Logging(Unmatched, Some(account)));
    } else {
      var k: nat :| s.sent[hd.event].version <= k < t.early && Claims(t, k, account);
      UnmatchedStaysVouched(s, x, f, h, Some(account));
    }
  }

  /** The other steps settle no event of an unbound subscription. */
  lemma OtherSteps(s: State, x: string, t: Trace, f: set<string>, step: Step)
    requires Fits(s, x, t) && Enabled(s, step) && Vouched(s, x, f)
    requires !step.Resolve? && !step.Lock? && !step.StripeChange? && !step.StripeNotice? && !step.Commit?
    ensures Vouched(Apply(s, step), x, f)
  {
    var s2 := Apply(s, step);
    forall e | Settles(s2, x, e) ensures Settles(s, x, e) {
      OtherStepSettlesNoMore(s, x, step, e);
    }
  }

  lemma OtherStepSettlesNoMore(s: State, x: string, step: Step, e: string)
    requires Sound(s) && Enabled(s, step) && Settles(Apply(s, step), x, e)
    requires !step.Resolve? && !step.Lock? && !step.StripeChange? && !step.StripeNotice? && !step.Commit?
    ensures Settles(s, x, e)
  {
    match step
    case UserJoins(user) => SameHandlersSettle(s, Joined(s, user), x, e);
    case Deliver(h, event, now) => SettledByAnother(s, Delivered(s, h, event, now), h, x, e);
    case CheckLog(h) => CheckLogSettlesNoMore(s, h, x, e);
    case FirstRead(h) => AdvanceSettlesNoMore(s, h, FirstReadDone(s, h).handlers[h].phase, x);
    case SecondRead(h) => AdvanceSettlesNoMore(s, h, SecondReadDone(s, h).handlers[h].phase, x);
    case ReadRow(h) => AdvanceSettlesNoMore(s, h, RowReadDone(s, h).handlers[h].phase, x);
    case LogOnly(h) => LogOnlySettlesNoMore(s, h, x, e);
    case Fail(h) => FinishSettlesNoMore(s, h, x);
  }

  lemma SameHandlersSettle(s: State, s2: State, x: string, e: string)
    requires s2.handlers == s.handlers && s2.log == s.log && s2.sent == s.sent && Settles(s2, x, e)
    ensures Settles(s, x, e)
  {
    if j :| j in s2.handlers && Logs(s2, j, e) { assert Logs(s, j, e); }
  }

  lemma SettledByAnother(s: State, s2: State, h: nat, x: string, e: string)
    requires s2.log == s.log && s2.sent == s.sent && Settles(s2, x, e)
    requires h in s2.handlers ==> !s2.handlers[h].phase.Logging? || s2.handlers[h].target != Of(x) || Logs(s, h, e)
    requires h in s2.handlers ==> s2.handlers[h].event in s.sent && s2.handlers[h].target == s.sent[s2.handlers[h].event].target
    requires forall k | k in s2.handlers && k != h :: k in s.handlers && s2.handlers[k] == s.handlers[k]
    ensures Settles(s, x, e)
  {
    if e !in s.log {
      var j :| j in s2.handlers && Logs(s2, j, e);
      assert Logs(s, j, e);
    }
  }

  lemma CheckLogSettlesNoMore(s: State, h: nat, x: string, e: string)
    requires Sound(s) && Enabled(s, CheckLog(h)) && Settles(LogChecked(s, h), x, e)
    ensures Settles(s, x, e)
  {
    SettledByAnother(s, LogChecked(s, h), h, x, e);
  }

  lemma CommitStaysVouched(s: State, x: string, f: set<string>, h: nat)
    requires Sound(s) && Enabled(s, Step.Commit(h)) && Vouched(s, x, f)
    ensures Vouched(Committed(s, h), x, f)
  {
    var s2 := Committed(s, h);
    if !Writes(s, h) {
      FinishSettlesNoMore(s, h, x);
    } else if s.handlers[h].target != Of(x) {
      forall e | Settles(s2, x, e) ensures Settles(s, x, e) { CommitSettles(s, h, x, e); }
    }
  }

  lemma StripeStaysVouched(s: State, x: string, t: Trace, f: set<string>, step: Step)
    requires Fits(s, x, t) && FromStripe(s, step) && Vouched(s, x, f)
    ensures Vouched(Apply(s, step), x, NextFounders(s, step, x, f))
  {
    StripeSettlesNoMore(s, step, x);
  }

  lemma StepStaysVouched(s: State, x: string, t: Trace, f: set<string>, step: Step)
    requires Fits(s, x, t) && Enabled(s, step) && Vouched(s, x, f)
    ensures Vouched(Apply(s, step), x, NextFounders(s, step, x, f))
  {
    match step
    case StripeChange(_, _, _) => StripeStaysVouched(s, x, t, f, step);
    case StripeNotice(_, _) => StripeStaysVouched(s, x, t, f, step);
    case Resolve(h) => ResolveStaysVouched(s, x, t, f, h);
    case Lock(h) => LockStaysVouched(s, x, t, f, h);
    case Commit(h) => CommitStaysVouched(s, x, f, h);
    case _ => OtherSteps(s, x, t, f, step);
  }

  lemma {:induction false} RunStaysVouched(s: State, steps: seq<Step>, s2: State, x: string, t: Trace, f: set<string>)
    requires Fits(s, x, t) && Vouched(s, x, f) && Runs(s, steps, s2)
    ensures Vouched(s2, x, Founders(s, steps, x, f))
    decreases |steps|
  {
    if steps != [] {
      StepFits(s, x, t, steps[0]);
      StepStaysVouched(s, x, t, f, steps[0]);
      RunStaysVouched(Apply(s, steps[0]), steps[1..], s2, x, Next(s, x, t, steps[0]), NextFounders(s, steps[0], x, f));
    }
  }

  predicate Owed(s: State, x: string) {
    x in s.live && x !in s.rows && s.live[x].sub.claimed.Some? && s.live[x].sub.claimed.value in s.users
  }

  /**
   In any run at all, once every event is logged a subscription that names an
   account which was there when it last changed has a row.
   */
  lemma FounderIsBound(graceDays: nat, steps: seq<Step>, s: State, x: string)
    requires Runs(Init(graceDays), steps, s) && Drained(s) && x in s.live && s.live[x].sub.claimed.Some?
    requires s.live[x].sub.claimed.value in Founders(Init(graceDays), steps, x, {})
    ensures x in s.rows
  {
    InitFits(graceDays, x);
    EveryRunFits(graceDays, steps, s, x);
    RunStaysVouched(Init(graceDays), steps, s, x, NO_TRACE, {});
    var e :| Announces(s, e, x);
    assert Settles(s, x, e);
  }

  // A run in which accounts come first

  ghost predicate OwedToFounders(s: State, x: string, f: set<string>) {
    Owed(s, x) ==> s.live[x].sub.claimed.value in f
  }

  predicate BooksGrow(s: State, s2: State) {
    s.rows.Keys <= s2.rows.Keys && s2.users == s.users && s2.live == s.live
  }

  lemma BooksOfHandlers(s: State, step: Step)
    requires Enabled(s, step) && HandlerStep(step)
    ensures BooksGrow(s, Apply(s, step))
  {
    if step.Commit? {
      assert BooksGrow(s, Committed(s, step.h));
    } else {
      HandlerStepKeepsLedger(s, step);
    }
  }

  lemma BooksOfStep(s: State, step: Step)
    requires Enabled(s, step)
    ensures s.rows.Keys <= Apply(s, step).rows.Keys && s.users <= Apply(s, step).users
    ensures !step.UserJoins? ==> Apply(s, step).users == s.users
    ensures !step.StripeChange? ==> Apply(s, step).live == s.live
  {
    if HandlerStep(step) {
      BooksOfHandlers(s, step);
    }
  }

  lemma {:induction false} FoundedRunOwesFounders(s: State, steps: seq<Step>, s2: State, x: string, f: set<string>)
    requires Runs(s, steps, s2) && FoundedRun(s, steps) && OwedToFounders(s, x, f)
    ensures OwedToFounders(s2, x, Founders(s, steps, x, f))
    decreases |steps|
  {
    if steps != [] {
      BooksOfStep(s, steps[0]);
      FoundedRunOwesFounders(Apply(s, steps[0]), steps[1..], s2, x, NextFounders(s, steps[0], x, f));
    }
  }

  /** Once drained, every subscription that names an account we have is bound, and agrees with Stripe. */
  lemma EveryOwedSubscriptionIsBound(graceDays: nat, steps: seq<Step>, t: State)
    requires Runs(Init(graceDays), steps, t)
    requires SteadyRun(Init(graceDays), steps) && FoundedRun(Init(graceDays), steps)
    requires Drained(t)
    ensures forall x | x in t.live && t.live[x].sub.claimed.Some? && t.live[x].sub.claimed.value in t.users ::
              x in t.rows && Agrees(t.rows[x], t.live[x].sub)
  {
    Convergence(graceDays, steps, t);
    forall x | x in t.live ensures !Owed(t, x) {
      FoundedRunOwesFounders(Init(graceDays), steps, t, x, {});
      if Owed(t, x) {
        FounderIsBound(graceDays, steps, t, x);
      }
    }
  }
}
