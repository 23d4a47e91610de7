/**
 What the event log and the rows record in every run: an event is applied at
 most once, and a row's account never changes.
 */
module MembershipRecords {
  import opened Wrappers
  import opened Memberships
  import opened MembershipProtocol

  predicate WasApplied(l: Logged) {
    l.outcome.Applied? || l.outcome.AppliedAccountMismatch?
  }

  /** `history` and `log` agree: nothing is applied twice, or applied and not logged. */
  ghost predicate LogMatchesHistory(s: State) {
    && (forall i | 0 <= i < |s.history| ::
          s.history[i].event in s.log && WasApplied(s.log[s.history[i].event]))
    && (forall i, j | 0 <= i < j < |s.history| :: s.history[i].event != s.history[j].event)
    && (forall e | e in s.log && WasApplied(s.log[e]) ::
          exists i | 0 <= i < |s.history| :: s.history[i].event == e)
  }

  ghost predicate HandlerIsHonest(s: State, h: nat)
    requires h in s.handlers
  {
    match s.handlers[h].phase
    case Logging(outcome, _) => outcome.Unmatched? || outcome.Ignored?
    case RowRead(_, _, _, row) =>
      row.Some? ==>
        && s.handlers[h].target.Of? && s.handlers[h].target.sub in s.rows
        && s.rows[s.handlers[h].target.sub].account == row.value.account
    case _ => true
  }

  /** Kept by EVERY run, steady or not. */
  ghost predicate Recorded(s: State) {
    && LogMatchesHistory(s)
    && (forall h | h in s.handlers :: HandlerIsHonest(s, h))
  }

  ghost predicate SameRecords(s: State, s2: State) {
    && s2.rows == s.rows && s2.rowVersion == s.rowVersion && s2.history == s.history
    && s2.graceDays == s.graceDays
  }

  lemma OnlyCommitsTouchRows(s: State, step: Step)
    requires Enabled(s, step) && !step.Commit?
    ensures SameRecords(s, Apply(s, step))
    ensures !step.LogOnly? ==> Apply(s, step).log == s.log
  {
    if HandlerStep(step) {
      HandlerStepKeepsLedger(s, step);
    }
  }

  /** Honesty is kept when one handler moves to an honest phase and the rows stay. */
  lemma HonestFrame(s: State, s2: State, h: nat)
    requires Recorded(s) && s2.rows == s.rows
    requires forall k | k in s2.handlers && k != h :: k in s.handlers && s2.handlers[k] == s.handlers[k]
    requires h in s2.handlers ==> HandlerIsHonest(s2, h)
    ensures forall k | k in s2.handlers :: HandlerIsHonest(s2, k)
  {
    forall k | k in s2.handlers ensures HandlerIsHonest(s2, k) {
      if k != h {
        assert HandlerIsHonest(s, k);
      }
    }
  }

  lemma SameHandlersStayHonest(s: State, s2: State)
    requires Recorded(s) && s2.rows == s.rows && s2.handlers == s.handlers
    ensures forall k | k in s2.handlers :: HandlerIsHonest(s2, k)
  {
    forall k | k in s2.handlers ensures HandlerIsHonest(s2, k) {
      assert HandlerIsHonest(s, k);
    }
  }

  predicate HonestPhase(phase: Phase) {
    !phase.RowRead? && (phase.Logging? ==> phase.outcome.Unmatched? || phase.outcome.Ignored?)
  }

  ghost predicate AllHonest(s: State) {
    forall k | k in s.handlers :: HandlerIsHonest(s, k)
  }

  lemma AdvanceKeepsHonest(s: State, h: nat, phase: Phase)
    requires Recorded(s) && h in s.handlers && HonestPhase(phase)
    ensures AllHonest(Advance(s, h, phase))
  {
    HonestFrame(s, Advance(s, h, phase), h);
  }

  lemma FinishKeepsHonest(s: State, h: nat)
    requires Recorded(s)
    ensures AllHonest(Finish(s, h))
  {
    HonestFrame(s, Finish(s, h), h);
  }

  lemma CheckLogKeepsHonest(s: State, h: nat)
    requires Recorded(s) && Enabled(s, CheckLog(h))
    ensures AllHonest(LogChecked(s, h))
  {
    var hd := s.handlers[h];
    if hd.event == "" || hd.event in s.log {
      FinishKeepsHonest(s, h);
    } else {
      match hd.target
      case NotOurs => AdvanceKeepsHonest(s, h, Logging(Ignored, None));
      case NoSubscription => AdvanceKeepsHonest(s, h, Logging(Unmatched, None));
      case Of(_) => AdvanceKeepsHonest(s, h, NotSeen);
    }
  }

  lemma LockKeepsHonest(s: State, h: nat)
    requires Recorded(s) && Enabled(s, Lock(h))
    ensures AllHonest(LockTaken(s, h))
  {
    HonestFrame(s, LockTaken(s, h), h);
  }

  lemma ReadRowKeepsHonest(s: State, h: nat)
    requires Recorded(s) && Enabled(s, ReadRow(h))
    ensures AllHonest(RowReadDone(s, h))
  {
    HonestFrame(s, RowReadDone(s, h), h);
  }

  lemma QuietStepKeepsHonest(s: State, step: Step)
    requires Recorded(s) && Enabled(s, step) && !step.Commit? && !step.LogOnly?
    ensures AllHonest(Apply(s, step))
  {
    match step
    case StripeChange(x, sub, event) => SameHandlersStayHonest(s, ChangedByStripe(s, x, sub, event));
    case StripeNotice(event, target) => SameHandlersStayHonest(s, Noticed(s, event, target));
    case UserJoins(user) => SameHandlersStayHonest(s, Joined(s, user));
    case Deliver(h, event, now) => HonestFrame(s, Delivered(s, h, event, now), h);
    case CheckLog(h) => CheckLogKeepsHonest(s, h);
    case FirstRead(h) => AdvanceKeepsHonest(s, h, FirstReadDone(s, h).handlers[h].phase);
    case Resolve(h) => AdvanceKeepsHonest(s, h, AccountResolved(s, h).handlers[h].phase);
    case Lock(h) => LockKeepsHonest(s, h);
    case SecondRead(h) => AdvanceKeepsHonest(s, h, SecondReadDone(s, h).handlers[h].phase);
    case ReadRow(h) => ReadRowKeepsHonest(s, h);
    case Fail(h) => FinishKeepsHonest(s, h);
  }

  lemma CommitKeepsLog(s: State, h: nat)
    requires LogMatchesHistory(s) && Writes(s, h)
    ensures LogMatchesHistory(Committed(s, h))
  {
    var s2 := Committed(s, h);
    var n := |s.history|;
    assert s2.history[n].event == s.handlers[h].event;
    forall e | e in s2.log && WasApplied(s2.log[e])
      ensures exists i | 0 <= i < |s2.history| :: s2.history[i].event == e
    {
      if e != s.handlers[h].event {
        var i :| 0 <= i < |s.history| && s.history[i].event == e;
        assert s2.history[i].event == e;
      }
    }
  }

  lemma CommitIsRecorded(s: State, h: nat)
    requires Recorded(s) && Enabled(s, Step.Commit(h))
    ensures Recorded(Committed(s, h))
    ensures forall x | x in s.rows :: x in Committed(s, h).rows && Committed(s, h).rows[x].account == s.rows[x].account
  {
    var s2 := Committed(s, h);
    if Writes(s, h) {
      CommitKeepsLog(s, h);
    }
    forall k | k in s2.handlers ensures HandlerIsHonest(s2, k) {
      assert HandlerIsHonest(s, k);
    }
  }

  lemma LogOnlyKeepsLog(s: State, h: nat)
    requires Recorded(s) && Enabled(s, LogOnly(h))
    ensures LogMatchesHistory(OnlyLogged(s, h))
  {
    assert HandlerIsHonest(s, h);
    assert OnlyLogged(s, h).history == s.history;
  }

  lemma LogOnlyIsRecorded(s: State, h: nat)
    requires Recorded(s) && Enabled(s, LogOnly(h))
    ensures Recorded(OnlyLogged(s, h))
  {
    LogOnlyKeepsLog(s, h);
    HonestFrame(s, OnlyLogged(s, h), h);
  }

  lemma CommitLogsItsEvent(s: State, h: nat)
    requires Enabled(s, Step.Commit(h)) && Committed(s, h).rows != s.rows
    ensures s.handlers[h].event !in s.log && Committed(s, h).log.Keys == s.log.Keys + {s.handlers[h].event}
  {
  }

  lemma RestIsRecorded(s: State, step: Step)
    requires Recorded(s) && Enabled(s, step) && !step.Commit?
    ensures Recorded(Apply(s, step)) && Apply(s, step).rows == s.rows
  {
    OnlyCommitsTouchRows(s, step);
    if step.LogOnly? {
      LogOnlyIsRecorded(s, step.h);
    } else {
      QuietStepKeepsHonest(s, step);
    }
  }

  /** One step, with no hypothesis: accounts stay, and a row changes only when a new event is logged. */
  lemma StepIsRecorded(s: State, step: Step)
    requires Recorded(s) && Enabled(s, step)
    ensures var s2 := Apply(s, step);
      && Recorded(s2)
      && (forall x | x in s.rows :: x in s2.rows && s2.rows[x].account == s.rows[x].account)
      && (s2.rows != s.rows ==> exists e | e !in s.log :: s2.log.Keys == s.log.Keys + {e})
  {
    if step.Commit? {
      CommitIsRecorded(s, step.h);
      if Apply(s, step).rows != s.rows {
        CommitLogsItsEvent(s, step.h);
      }
    } else {
      RestIsRecorded(s, step);
    }
  }

  lemma {:induction false} RunIsRecorded(s: State, steps: seq<Step>, t: State)
    requires Recorded(s) && Runs(s, steps, t)
    ensures Recorded(t)
    ensures forall x | x in s.rows :: x in t.rows && t.rows[x].account == s.rows[x].account
    decreases |steps|
  {
    if steps != [] {
      StepIsRecorded(s, steps[0]);
      RunIsRecorded(Apply(s, steps[0]), steps[1..], t);
    }
  }

  /**
   Applied at most once: over every run, with any two handlers racing past the
   duplicate check, the applied events are distinct, and the log says "applied"
   of exactly those.
   */
  lemma AppliedAtMostOnce(graceDays: nat, steps: seq<Step>, t: State)
    requires Runs(Init(graceDays), steps, t)
    ensures forall i, j | 0 <= i < j < |t.history| :: t.history[i].event != t.history[j].event
    ensures forall e :: (e in t.log && WasApplied(t.log[e]))
                        <==> exists i | 0 <= i < |t.history| :: t.history[i].event == e
  {
    RunIsRecorded(Init(graceDays), steps, t);
  }

  /** A row's account never changes after creation, whatever the metadata says later. */
  lemma AccountsNeverMove(graceDays: nat, before: seq<Step>, s: State, after: seq<Step>, t: State)
    requires Runs(Init(graceDays), before, s) && Runs(s, after, t)
    ensures forall x | x in s.rows :: x in t.rows && t.rows[x].account == s.rows[x].account
  {
    RunIsRecorded(Init(graceDays), before, s);
    RunIsRecorded(s, after, t);
  }
}
