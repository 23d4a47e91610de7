/** What the event log says of every event. */
module MembershipOutcomes {
  import opened Wrappers
  import opened Memberships
  import opened MembershipProtocol
  import opened MembershipTrace
  import opened MembershipRecords

  /** Ignored means that the event is none of ours; one that names no subscription matches nothing. */
  predicate RightVerdict(target: Target, outcome: Outcome, account: Option<string>) {
    && (outcome == Ignored <==> target == NotOurs)
    && (target == NoSubscription ==> outcome == Unmatched && account == None)
    && (outcome == Ignored ==> account == None)
  }

  ghost predicate ToldEvents(s: State) {
    forall e | e in s.log :: e in s.sent && RightVerdict(s.sent[e].target, s.log[e].outcome, s.log[e].account)
  }

  /** An applied event names its row's account, and says whether the metadata it read named that account too. */
  ghost predicate ToldEffect(s: State, f: Effect) {
    && f.event in s.log && f.event in s.sent && f.sub in s.rows && s.sent[f.event].target == Of(f.sub)
    && var account := s.rows[f.sub].account;
       s.log[f.event] ==
       Logged(if f.seen.sub.claimed == Some(account) then Outcome.Applied else AppliedAccountMismatch, Some(account))
  }

  ghost predicate ToldEffects(s: State) {
    forall i | 0 <= i < |s.history| :: ToldEffect(s, s.history[i])
  }

  predicate ToldPhase(target: Target, phase: Phase) {
    match phase
    case Begun => true
    case Logging(outcome, named) => RightVerdict(target, outcome, named) && outcome in {Unmatched, Ignored}
    case _ => target.Of?
  }

  ghost predicate ToldHandlers(s: State) {
    forall h | h in s.handlers :: ToldPhase(s.handlers[h].target, s.handlers[h].phase)
  }

  ghost predicate Told(s: State) {
    ToldEvents(s) && ToldEffects(s) && ToldHandlers(s)
  }

  // Steps

  /** The books stay and Stripe forgets nothing it sent. */
  ghost predicate SameTale(s: State, s2: State) {
    && s2.log == s.log && s2.history == s.history && s2.rows == s.rows
    && forall e | e in s.sent :: e in s2.sent && s2.sent[e] == s.sent[e]
  }

  lemma TaleGoesOn(s: State, s2: State, h: nat)
    requires Told(s) && SameTale(s, s2)
    requires forall k | k in s2.handlers && k != h :: k in s.handlers && s2.handlers[k] == s.handlers[k]
    requires h in s2.handlers ==> ToldPhase(s2.handlers[h].target, s2.handlers[h].phase)
    ensures Told(s2)
  {
    forall i | 0 <= i < |s2.history| ensures ToldEffect(s2, s2.history[i]) {
      assert ToldEffect(s, s.history[i]);
    }
  }

  lemma AdvanceKeepsTold(s: State, h: nat, phase: Phase)
    requires Told(s) && h in s.handlers && ToldPhase(s.handlers[h].target, phase)
    ensures Told(Advance(s, h, phase))
  {
    TaleGoesOn(s, Advance(s, h, phase), h);
  }

  lemma FinishKeepsTold(s: State, h: nat)
    requires Told(s)
    ensures Told(Finish(s, h))
  {
    TaleGoesOn(s, Finish(s, h), h);
  }

  lemma CheckLogKeepsTold(s: State, h: nat)
    requires Told(s) && Enabled(s, CheckLog(h))
    ensures Told(LogChecked(s, h))
  {
    var hd := s.handlers[h];
    if hd.event == "" || hd.event in s.log {
      FinishKeepsTold(s, h);
    } else {
      match hd.target
      case NotOurs => AdvanceKeepsTold(s, h, Logging(Ignored, None));
      case NoSubscription => AdvanceKeepsTold(s, h, Logging(Unmatched, None));
      case Of(_) => AdvanceKeepsTold(s, h, NotSeen);
    }
  }

  lemma LockKeepsTold(s: State, h: nat)
    requires Told(s) && Enabled(s, Lock(h))
    ensures Told(LockTaken(s, h))
  {
    TaleGoesOn(s, LockTaken(s, h), h);
  }

  lemma LogOnlyKeepsEvents(s: State, h: nat)
    requires Sound(s) && Told(s) && Enabled(s, LogOnly(h))
    ensures ToldEvents(OnlyLogged(s, h)) && ToldHandlers(OnlyLogged(s, h))
  {
    assert ToldPhase(s.handlers[h].target, s.handlers[h].phase);
  }

  lemma LogOnlyKeepsEffect(s: State, h: nat, f: Effect)
    requires Enabled(s, LogOnly(h)) && ToldEffect(s, f)
    ensures ToldEffect(OnlyLogged(s, h), f)
  {
  }

  lemma LogOnlyKeepsTold(s: State, h: nat)
    requires Sound(s) && Told(s) && Enabled(s, LogOnly(h))
    ensures Told(OnlyLogged(s, h))
  {
    var s2 := OnlyLogged(s, h);
    LogOnlyKeepsEvents(s, h);
    assert s2.history == s.history;
    forall i | 0 <= i < |s2.history| ensures ToldEffect(s2, s2.history[i]) {
      LogOnlyKeepsEffect(s, h, s.history[i]);
    }
  }

  /** The commit's own event is told as it happened... */
  lemma CommitTellsItsEvent(s: State, h: nat)
    requires Sound(s) && Recorded(s) && Told(s) && Writes(s, h)
    ensures var s2 := Committed(s, h);
      |s2.history| == |s.history| + 1 && ToldEffect(s2, s2.history[|s.history|])
  {
    assert HandlerIsHonest(s, h);
  }

  /** ...and every other as before. */
  lemma CommitKeepsEffect(s: State, h: nat, f: Effect)
    requires Recorded(s) && Writes(s, h) && ToldEffect(s, f)
    ensures ToldEffect(Committed(s, h), f)
  {
    assert HandlerIsHonest(s, h);
  }

  lemma CommitKeepsTold(s: State, h: nat)
    requires Sound(s) && Recorded(s) && Told(s) && Enabled(s, Step.Commit(h))
    ensures Told(Committed(s, h))
  {
    var s2 := Committed(s, h);
    if !Writes(s, h) {
      FinishKeepsTold(s, h);
    } else {
      CommitTellsItsEvent(s, h);
      forall i | 0 <= i < |s2.history| ensures ToldEffect(s2, s2.history[i]) {
        if i < |s.history| {
          assert s2.history[i] == s.history[i];
          CommitKeepsEffect(s, h, s.history[i]);
        }
      }
    }
  }

  lemma OutsideKeepsTold(s: State, step: Step)
    requires Told(s) && Enabled(s, step) && !HandlerStep(step)
    ensures Told(Apply(s, step))
  {
    TaleGoesOn(s, Apply(s, step), 0);
  }

  lemma StepKeepsTold(s: State, step: Step)
    requires Sound(s) && Recorded(s) && Told(s) && Enabled(s, step)
    ensures Told(Apply(s, step))
  {
    match step
    case Commit(h) => CommitKeepsTold(s, h);
    case LogOnly(h) => LogOnlyKeepsTold(s, h);
    case _ => QuietStepKeepsTold(s, step);
  }

  lemma QuietStepKeepsTold(s: State, step: Step)
    requires Told(s) && Enabled(s, step) && !step.Commit? && !step.LogOnly?
    ensures Told(Apply(s, step))
  {
    match step
    case Deliver(h, event, now) => TaleGoesOn(s, Delivered(s, h, event, now), h);
    case CheckLog(h) => CheckLogKeepsTold(s, h);
    case FirstRead(h) => AdvanceKeepsTold(s, h, FirstReadDone(s, h).handlers[h].phase);
    case Resolve(h) => AdvanceKeepsTold(s, h, AccountResolved(s, h).handlers[h].phase);
    case Lock(h) => LockKeepsTold(s, h);
    case SecondRead(h) => AdvanceKeepsTold(s, h, SecondReadDone(s, h).handlers[h].phase);
    case ReadRow(h) => AdvanceKeepsTold(s, h, RowReadDone(s, h).handlers[h].phase);
    case Fail(h) => FinishKeepsTold(s, h);
    case _ => OutsideKeepsTold(s, step);
  }

  lemma {:induction false} RunKeepsTold(s: State, steps: seq<Step>, t: State)
    requires Sound(s) && Recorded(s) && Told(s) && Runs(s, steps, t)
    ensures Told(t)
    decreases |steps|
  {
    if steps != [] {
      StepKeepsSound(s, steps[0]);
      StepIsRecorded(s, steps[0]);
      StepKeepsTold(s, steps[0]);
      RunKeepsTold(Apply(s, steps[0]), steps[1..], t);
    }
  }

  /**
   Over every run the log is right about each event: it is ignored exactly when it
   is none of ours, and an applied one names the account of its row and says
   whether the metadata that was read still named it.
   */
  lemma LogSaysWhatHappened(graceDays: nat, steps: seq<Step>, s: State)
    requires Runs(Init(graceDays), steps, s)
    ensures forall e | e in s.log :: e in s.sent && RightVerdict(s.sent[e].target, s.log[e].outcome, s.log[e].account)
    ensures forall i | 0 <= i < |s.history| :: ToldEffect(s, s.history[i])
  {
    RunKeepsTold(Init(graceDays), steps, s);
  }
}
