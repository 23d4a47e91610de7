/**
 The invariant of one subscription is kept by what Stripe does, by the commit
 and so by every step of every run.
 */
module MembershipSteps {
  import opened Wrappers
  import opened Memberships
  import opened MembershipProtocol
  import opened MembershipTrace

  // Stripe

  predicate FromStripe(s: State, step: Step) {
    (step.StripeChange? || step.StripeNotice?) && Enabled(s, step)
  }

  /** A new event is fresh, so nothing has settled it. */
  lemma StripeSettlesNoMore(s: State, step: Step, x: string)
    requires Sound(s) && FromStripe(s, step)
    ensures forall e | Settles(Apply(s, step), x, e) :: Settles(s, x, e) && Apply(s, step).sent[e] == s.sent[e]
  {
    var s2 := Apply(s, step);
    forall e | Settles(s2, x, e) ensures Settles(s, x, e) && s2.sent[e] == s.sent[e] {
      if k :| k in s2.handlers && Logs(s2, k, e) {
        assert Logs(s, k, e);
      }
    }
  }

  lemma StripeExtends(s: State, step: Step, x: string, t: Trace)
    requires Fits(s, x, t) && FromStripe(s, step)
    ensures Extends(s, Apply(s, step), x, t, Next(s, x, t, step))
  {
    StripeSettlesNoMore(s, step, x);
  }

  lemma ChangeStatesFit(s: State, x: string, sub: Subscription, event: string, t: Trace)
    requires Sound(s) && StatesFit(s, x, t) && Enabled(s, StripeChange(x, sub, event))
    ensures StatesFit(ChangedByStripe(s, x, sub, event), x, Next(s, x, t, StripeChange(x, sub, event)))
  {
    assert Announces(ChangedByStripe(s, x, sub, event), event, x);
  }

  lemma StrangeStatesFit(s: State, step: Step, x: string, t: Trace)
    requires Sound(s) && StatesFit(s, x, t) && FromStripe(s, step) && !(step.StripeChange? && step.x == x)
    ensures StatesFit(Apply(s, step), x, t)
  {
    if x in s.live {
      var e :| Announces(s, e, x);
      assert Announces(Apply(s, step), e, x);
    }
  }

  lemma StripeStatesFit(s: State, step: Step, x: string, t: Trace)
    requires Sound(s) && StatesFit(s, x, t) && FromStripe(s, step)
    ensures StatesFit(Apply(s, step), x, Next(s, x, t, step))
  {
    if step.StripeChange? && step.x == x {
      ChangeStatesFit(s, x, step.sub, step.event, t);
    } else {
      assert Next(s, x, t, step) == t;
      StrangeStatesFit(s, step, x, t);
    }
  }

  lemma StripeFits(s: State, step: Step, x: string, t: Trace)
    requires Fits(s, x, t) && FromStripe(s, step)
    ensures Fits(Apply(s, step), x, Next(s, x, t, step))
  {
    var s2, u := Apply(s, step), Next(s, x, t, step);
    StepKeepsSound(s, step);
    StripeStatesFit(s, step, x, t);
    StripeExtends(s, step, x, t);
    RowFitsStill(s, s2, x, t, u);
    forall k | k in s2.handlers ensures HandlerFits(s2, x, u, k) {
      HandlerFitsStill(s, s2, x, t, u, k);
    }
  }

  // The commit

  lemma CommitSettles(s: State, h: nat, x: string, e: string)
    requires Writes(s, h) && Settles(Committed(s, h), x, e)
    ensures Settles(s, x, e) || e == s.handlers[h].event
  {
    var s2 := Committed(s, h);
    if k :| k in s2.handlers && Logs(s2, k, e) { assert Logs(s, k, e); }
  }

  /** The commit of a handler of another subscription. */
  lemma StrangerExtends(s: State, x: string, t: Trace, h: nat)
    requires Fits(s, x, t) && Writes(s, h) && s.handlers[h].target != Of(x)
    ensures Extends(s, Committed(s, h), x, t, t)
  {
    forall e | Settles(Committed(s, h), x, e) ensures Settles(s, x, e) { CommitSettles(s, h, x, e); }
  }

  lemma StrangerCommitFits(s: State, x: string, t: Trace, h: nat)
    requires Fits(s, x, t) && Writes(s, h) && s.handlers[h].target != Of(x)
    ensures Fits(Committed(s, h), x, t)
  {
    var s2 := Committed(s, h);
    CommitKeepsSound(s, h);
    StrangerExtends(s, x, t, h);
    CommitStatesFit(s, x, t, h);
    RowFitsStill(s, s2, x, t, t);
    forall k | k in s2.handlers ensures HandlerFits(s2, x, t, k) {
      HandlerFitsStill(s, s2, x, t, t, k);
    }
  }

  lemma KnowsClaim(s: State, x: string, t: Trace, a: string, v: nat)
    requires Knows(s, x, t, a, v)
    ensures EarlyClaim(t, t.early, a)
  {
    var k: nat :| k < v + 1 && k < t.early && Claims(t, k, a);
  }

  /** What another handler of `x` keeps when `h` commits: its lock, its claim, and a rival if it has read already. */
  lemma OtherInsideFits(s: State, x: string, t: Trace, h: nat, k: nat, w: nat, a: string, sub: Subscription, v: nat)
    requires Fits(s, x, t) && Writes(s, h) && s.handlers[h].target == Of(x) && k != h
    requires InsideFits(s, x, t, k, w, a, sub, v)
    ensures InsideFits(Committed(s, h), x, t, k, w, a, sub, v) && Rival(t, s.users, a)
  {
    var s2, p := Committed(s, h), s.handlers[h].phase;
    assert HandlerFits(s, x, t, h);
    KnowsClaim(s, x, t, p.account, p.version);
    assert Knows(s2, x, t, a, v);
  }

  lemma CommitRowFits(s: State, x: string, t: Trace, h: nat)
    requires Fits(s, x, t) && Writes(s, h) && s.handlers[h].target == Of(x)
    ensures RowFits(Committed(s, h), x, t)
  {
    var s2, p := Committed(s, h), s.handlers[h].phase;
    assert HandlerFits(s, x, t, h);
    KnowsClaim(s, x, t, p.account, p.version);
    forall e | Settles(s2, x, e) && s2.sent[e].version > p.version
      ensures Excused(t, s2.users, s2.sent[e].version, p.account)
    {
      CommitSettles(s, h, x, e);
    }
    assert Knows(s2, x, t, p.account, p.version);
  }

  lemma CommitKeepsHandler(s: State, h: nat, k: nat)
    requires Writes(s, h) && k in s.handlers && k != h
    ensures k in Committed(s, h).handlers && Committed(s, h).handlers[k] == s.handlers[k]
    ensures Committed(s, h).sent == s.sent
  {
  }

  lemma OtherReaderFits(s: State, x: string, t: Trace, h: nat, k: nat)
    requires Fits(s, x, t) && Writes(s, h) && s.handlers[h].target == Of(x) && k in s.handlers && k != h
    requires s.handlers[k].target == Of(x) && s.handlers[k].phase.ReadTwice?
    ensures HandlerFits(Committed(s, h), x, t, k)
  {
    var hd := s.handlers[k];
    assert HandlerFits(s, x, t, k);
    OtherInsideFits(s, x, t, h, k, s.sent[hd.event].version, hd.phase.account, hd.phase.sub, hd.phase.version);
    CommitKeepsHandler(s, h, k);
  }

  /** The commit writes the row of the account it found there. */
  lemma CommitKeepsOwner(s: State, x: string, t: Trace, h: nat)
    requires Fits(s, x, t) && Writes(s, h) && s.handlers[h].target == Of(x)
    ensures x in Committed(s, h).rows && SameOwner(Lookup(s.rows, x), Lookup(Committed(s, h).rows, x))
  {
    assert HandlerFits(s, x, t, h);
  }

  lemma OtherRowReaderFits(s: State, x: string, t: Trace, h: nat, k: nat)
    requires Fits(s, x, t) && Writes(s, h) && s.handlers[h].target == Of(x) && k in s.handlers && k != h
    requires s.handlers[k].target == Of(x) && s.handlers[k].phase.RowRead?
    ensures HandlerFits(Committed(s, h), x, t, k)
  {
    var hd := s.handlers[k];
    assert HandlerFits(s, x, t, k);
    CommitKeepsOwner(s, x, t, h);
    OtherInsideFits(s, x, t, h, k, s.sent[hd.event].version, hd.phase.account, hd.phase.sub, hd.phase.version);
  }

  lemma OtherHandlerFits(s: State, x: string, t: Trace, h: nat, k: nat)
    requires Fits(s, x, t) && Writes(s, h) && s.handlers[h].target == Of(x) && k in s.handlers && k != h
    ensures HandlerFits(Committed(s, h), x, t, k)
  {
    assert HandlerFits(s, x, t, k);
    if s.handlers[k].target == Of(x) {
      if s.handlers[k].phase.ReadTwice? {
        OtherReaderFits(s, x, t, h, k);
      } else if s.handlers[k].phase.RowRead? {
        OtherRowReaderFits(s, x, t, h, k);
      } else {
        CommitKeepsOwner(s, x, t, h);
      }
    }
  }

  lemma CommitStatesFit(s: State, x: string, t: Trace, h: nat)
    requires StatesFit(s, x, t) && Writes(s, h) && (s.handlers[h].target == Of(x) ==> x in Committed(s, h).rows)
    ensures StatesFit(Committed(s, h), x, t)
  {
    if x in s.live {
      var e :| Announces(s, e, x);
      assert Announces(Committed(s, h), e, x);
    }
  }

  lemma OwnCommitFits(s: State, x: string, t: Trace, h: nat)
    requires Fits(s, x, t) && Writes(s, h) && s.handlers[h].target == Of(x)
    ensures Fits(Committed(s, h), x, t)
  {
    var s2 := Committed(s, h);
    CommitKeepsSound(s, h);
    CommitRowFits(s, x, t, h);
    CommitStatesFit(s, x, t, h);
    forall k | k in s2.handlers ensures HandlerFits(s2, x, t, k) {
      OtherHandlerFits(s, x, t, h, k);
    }
  }

  // Every step, every run

  lemma CommitFits(s: State, x: string, t: Trace, h: nat)
    requires Fits(s, x, t) && Enabled(s, Step.Commit(h))
    ensures Fits(Committed(s, h), x, t)
  {
    if !Writes(s, h) {
      FinishFits(s, x, t, h);
    } else if s.handlers[h].target == Of(x) {
      OwnCommitFits(s, x, t, h);
    } else {
      StrangerCommitFits(s, x, t, h);
    }
  }

  /** Every step of Stripe, of sign-up or of a handler keeps the subscription's invariant, with no hypothesis. */
  lemma StepFits(s: State, x: string, t: Trace, step: Step)
    requires Fits(s, x, t) && Enabled(s, step)
    ensures Fits(Apply(s, step), x, Next(s, x, t, step))
  {
    assert !step.StripeChange? ==> Next(s, x, t, step) == t;
    match step
    case StripeChange(_, _, _) => StripeFits(s, step, x, t);
    case StripeNotice(_, _) => StripeFits(s, step, x, t);
    case UserJoins(user) => UserJoinsFits(s, x, t, user);
    case Deliver(h, event, now) => DeliverFits(s, x, t, h, event, now);
    case CheckLog(h) => CheckLogFits(s, x, t, h);
    case FirstRead(h) => FirstReadFits(s, x, t, h);
    case Resolve(h) => ResolveFits(s, x, t, h);
    case Lock(h) => LockFits(s, x, t, h);
    case SecondRead(h) => SecondReadFits(s, x, t, h);
    case ReadRow(h) => ReadRowFits(s, x, t, h);
    case Commit(h) => CommitFits(s, x, t, h);
    case LogOnly(h) => LogOnlyFits(s, x, t, h);
    case Fail(h) => FinishFits(s, x, t, h);
  }

  const NO_TRACE := Trace([], 0)

  lemma InitFits(graceDays: nat, x: string)
    ensures Fits(Init(graceDays), x, NO_TRACE)
  {
  }

  /** All early states name the same account, or none: nothing here can be a rival or slip. */
  predicate OneClaim(t: Trace) {
    forall j, k | 0 <= j < t.early && 0 <= k < t.early && j < |t.states| && k < |t.states| ::
      t.states[j].claimed == t.states[k].claimed
  }

  lemma OneClaimExcusesNothing(t: Trace, users: set<string>, w: nat, hi: nat, a: string)
    requires OneClaim(t) && EarlyClaim(t, hi, a) && t.early <= |t.states|
    ensures !Excused(t, users, w, a)
  {
    forall k: nat | k < t.early ensures t.states[k].claimed == Some(a) {
    }
  }

  lemma SteadyStepKeepsOneClaim(s: State, x: string, t: Trace, step: Step)
    requires Fits(s, x, t) && Enabled(s, step) && Steady(s, step) && OneClaim(t)
    ensures OneClaim(Next(s, x, t, step))
  {
  }

  /** The trace a run leaves. */
  function TraceAfter(s: State, steps: seq<Step>, x: string, t: Trace): Trace
    decreases |steps|
  {
    if steps == [] || !Enabled(s, steps[0]) then t
    else TraceAfter(Apply(s, steps[0]), steps[1..], x, Next(s, x, t, steps[0]))
  }

  lemma {:induction false} RunFits(s: State, steps: seq<Step>, s2: State, x: string, t: Trace)
    requires Fits(s, x, t) && Runs(s, steps, s2)
    ensures Fits(s2, x, TraceAfter(s, steps, x, t))
    decreases |steps|
  {
    if steps != [] {
      StepFits(s, x, t, steps[0]);
      RunFits(Apply(s, steps[0]), steps[1..], s2, x, Next(s, x, t, steps[0]));
    }
  }

  lemma {:induction false} TraceHasTheStates(s: State, steps: seq<Step>, s2: State, x: string, t: Trace)
    requires Runs(s, steps, s2)
    ensures TraceAfter(s, steps, x, t).states == t.states + StatesOf(steps, x)
    decreases |steps|
  {
    if steps != [] {
      TraceHasTheStates(Apply(s, steps[0]), steps[1..], s2, x, Next(s, x, t, steps[0]));
    }
  }

  lemma {:induction false} SteadyRunKeepsOneClaim(s: State, steps: seq<Step>, s2: State, x: string, t: Trace)
    requires Fits(s, x, t) && Runs(s, steps, s2) && SteadyRun(s, steps) && OneClaim(t)
    ensures OneClaim(TraceAfter(s, steps, x, t))
    decreases |steps|
  {
    if steps != [] {
      StepFits(s, x, t, steps[0]);
      SteadyStepKeepsOneClaim(s, x, t, steps[0]);
      SteadyRunKeepsOneClaim(Apply(s, steps[0]), steps[1..], s2, x, Next(s, x, t, steps[0]));
    }
  }

  /** The trace of `x` over a run from the start. */
  function TraceOf(graceDays: nat, steps: seq<Step>, x: string): Trace {
    TraceAfter(Init(graceDays), steps, x, NO_TRACE)
  }

  /** What every run keeps, whatever the delivery order, the duplicates, the interleaving and the failures. */
  lemma EveryRunFits(graceDays: nat, steps: seq<Step>, s: State, x: string)
    requires Runs(Init(graceDays), steps, s)
    ensures Fits(s, x, TraceOf(graceDays, steps, x))
    ensures TraceOf(graceDays, steps, x).states == StatesOf(steps, x)
    ensures SteadyRun(Init(graceDays), steps) ==> OneClaim(TraceOf(graceDays, steps, x))
  {
    InitFits(graceDays, x);
    RunFits(Init(graceDays), steps, s, x, NO_TRACE);
    TraceHasTheStates(Init(graceDays), steps, s, x, NO_TRACE);
    if SteadyRun(Init(graceDays), steps) {
      SteadyRunKeepsOneClaim(Init(graceDays), steps, s, x, NO_TRACE);
    }
  }
}
