/** A row replays its commits in read order, unless two accounts were claimed. */
module MembershipHistory {
  import opened Wrappers
  import opened Memberships
  import opened MembershipProtocol
  import opened MembershipTrace
  import opened MembershipSteps
  import opened MembershipRecords
  import opened MembershipConvergence

  // No lost update

  /** The observations committed for `x`, in commit order. */
  function Observed(history: seq<Effect>, x: string): seq<Observation> {
    if history == [] then []
    else
      var last := history[|history| - 1];
      Observed(history[..|history| - 1], x) + (if last.sub == x then [last.seen] else [])
  }

  predicate InReadOrder(s: State, x: string) {
    forall i, j | 0 <= i < j < |s.history| && s.history[i].sub == x && s.history[j].sub == x ::
      s.history[i].version <= s.history[j].version
  }

  /** The row's version is that of the newest read that was ever committed. */
  predicate UpToVersion(s: State, x: string) {
    forall i | 0 <= i < |s.history| && s.history[i].sub == x ::
      x in s.rowVersion && s.history[i].version <= s.rowVersion[x]
  }

  predicate RowIsReplay(s: State, x: string) {
    && (x in s.rows <==> Observed(s.history, x) != [])
    && (x in s.rows ==> s.rows[x] == Replay(s.rows[x].account, Observed(s.history, x), s.graceDays))
  }

  /** No update of `x` was lost: its commits follow its reads, and the row is their replay. */
  predicate NothingLost(s: State, x: string) {
    InReadOrder(s, x) && UpToVersion(s, x) && RowIsReplay(s, x)
  }

  predicate TwoClaimed(t: Trace, users: set<string>) {
    exists a | a in users :: EarlyClaim(t, t.early, a) && Rival(t, users, a)
  }

  lemma TwoClaimedGrows(t: Trace, u: Trace, users: set<string>, more: set<string>)
    requires TwoClaimed(t, users) && Grows(t, u) && users <= more
    ensures TwoClaimed(u, more)
  {
    var a :| a in users && EarlyClaim(t, t.early, a) && Rival(t, users, a);
    EarlyClaimGrows(t, u, t.early, u.early, a);
    RivalGrows(t, u, users, more, a);
  }

  /** A commit that overtakes nobody: it read no older state than the row's, and the row is as it read it. */
  predicate Current(s: State, h: nat, x: string) {
    && Writes(s, h) && s.handlers[h].target == Of(x)
    && (x in s.rowVersion ==> s.rowVersion[x] <= s.handlers[h].phase.version)
    && s.handlers[h].phase.row == Lookup(s.rows, x)
  }

  lemma CurrentStaysInOrder(s: State, h: nat, x: string)
    requires Current(s, h, x) && InReadOrder(s, x) && UpToVersion(s, x)
    ensures InReadOrder(Committed(s, h), x)
  {
    var s2, n := Committed(s, h), |s.history|;
    assert forall i | 0 <= i < n :: s2.history[i] == s.history[i];
    assert s2.history[n].version == s.handlers[h].phase.version;
  }

  lemma CurrentExtendsReplay(s: State, h: nat, x: string)
    requires Current(s, h, x) && RowIsReplay(s, x)
    ensures RowIsReplay(Committed(s, h), x)
  {
    var s2, hd := Committed(s, h), s.handlers[h];
    var before := Observed(s.history, x);
    var after := Observed(s2.history, x);
    assert after == before + [Observation(hd.phase.sub, hd.now)] && after[..|after| - 1] == before;
  }

  lemma StrangerLosesNothing(s: State, h: nat, x: string)
    requires Writes(s, h) && s.handlers[h].target != Of(x) && NothingLost(s, x)
    ensures NothingLost(Committed(s, h), x)
  {
    var s2, hd, n := Committed(s, h), s.handlers[h], |s.history|;
    assert Observed(s2.history, x) == Observed(s.history, x);
    assert forall i | 0 <= i < n :: s2.history[i] == s.history[i];
    assert s2.history[n].sub != x;
  }

  lemma CommitLosesNothing(s: State, x: string, t: Trace, h: nat)
    requires Fits(s, x, t) && Writes(s, h) && NothingLost(s, x)
    ensures NothingLost(Committed(s, h), x) || TwoClaimed(t, s.users)
  {
    if s.handlers[h].target != Of(x) {
      StrangerLosesNothing(s, h, x);
    } else {
      assert HandlerFits(s, x, t, h);
      var p := s.handlers[h].phase;
      KnowsClaim(s, x, t, p.account, p.version);
      if !Rival(t, s.users, p.account) {
        assert Current(s, h, x);
        CurrentStaysInOrder(s, h, x);
        CurrentExtendsReplay(s, h, x);
      }
    }
  }

  lemma SameRecordsLoseNothing(s: State, s2: State, x: string)
    requires SameRecords(s, s2) && NothingLost(s, x)
    ensures NothingLost(s2, x)
  {
  }

  lemma StepLosesNothing(s: State, x: string, t: Trace, step: Step)
    requires Fits(s, x, t) && Enabled(s, step) && NothingLost(s, x)
    ensures NothingLost(Apply(s, step), x) || TwoClaimed(t, s.users)
  {
    if !step.Commit? {
      OnlyCommitsTouchRows(s, step);
      SameRecordsLoseNothing(s, Apply(s, step), x);
    } else if Writes(s, step.h) {
      CommitLosesNothing(s, x, t, step.h);
    } else {
      SameRecordsLoseNothing(s, Finish(s, step.h), x);
    }
  }

  lemma NextGrows(s: State, x: string, t: Trace, step: Step)
    requires t.early <= |t.states| && Enabled(s, step)
    ensures Grows(t, Next(s, x, t, step)) && s.users <= Apply(s, step).users
  {
    BooksOfStep(s, step);
  }

  lemma {:induction false} RunLosesNothing(s: State, steps: seq<Step>, s2: State, x: string, t: Trace)
    requires Fits(s, x, t) && Runs(s, steps, s2) && (NothingLost(s, x) || TwoClaimed(t, s.users))
    ensures NothingLost(s2, x) || TwoClaimed(TraceAfter(s, steps, x, t), s2.users)
    decreases |steps|
  {
    if steps != [] {
      StepFits(s, x, t, steps[0]);
      NextGrows(s, x, t, steps[0]);
      if TwoClaimed(t, s.users) {
        TwoClaimedGrows(t, Next(s, x, t, steps[0]), s.users, Apply(s, steps[0]).users);
      } else {
        StepLosesNothing(s, x, t, steps[0]);
      }
      RunLosesNothing(Apply(s, steps[0]), steps[1..], s2, x, Next(s, x, t, steps[0]));
    }
  }

  /** Two accounts we have are named by states of the subscription. */
  predicate TwoNamed(states: seq<Subscription>, users: set<string>) {
    exists a | a in users :: Named(states, |states|, a) && NamesAnother(states, users, a)
  }

  lemma TwoClaimedAreNamed(t: Trace, users: set<string>)
    requires TwoClaimed(t, users) && t.early <= |t.states|
    ensures TwoNamed(t.states, users)
  {
    var a :| a in users && EarlyClaim(t, t.early, a) && Rival(t, users, a);
    var b :| b in users && RivalIs(t, users, a, b);
    EarlyIsNamedAtAll(t, a);
    EarlyIsNamedAtAll(t, b);
  }

  /** One half of the exact condition, for every run at all: nothing is lost unless two accounts are named. */
  lemma LosingNeedsTwo(graceDays: nat, steps: seq<Step>, s: State, x: string)
    requires Runs(Init(graceDays), steps, s)
    ensures NothingLost(s, x) || TwoNamed(StatesOf(steps, x), s.users)
  {
    InitFits(graceDays, x);
    EveryRunFits(graceDays, steps, s, x);
    RunLosesNothing(Init(graceDays), steps, s, x, NO_TRACE);
    if TwoClaimed(TraceOf(graceDays, steps, x), s.users) {
      TwoClaimedAreNamed(TraceOf(graceDays, steps, x), s.users);
    }
  }

  lemma SteadyRunLosesNothing(graceDays: nat, steps: seq<Step>, s: State, x: string)
    requires Runs(Init(graceDays), steps, s) && SteadyRun(Init(graceDays), steps)
    ensures NothingLost(s, x)
  {
    var t := TraceOf(graceDays, steps, x);
    InitFits(graceDays, x);
    EveryRunFits(graceDays, steps, s, x);
    RunLosesNothing(Init(graceDays), steps, s, x, NO_TRACE);
    forall a | a in s.users && EarlyClaim(t, t.early, a) ensures !Rival(t, s.users, a) {
      OneClaimExcusesNothing(t, s.users, 0, t.early, a);
    }
  }

  /**
   No lost update: in every steady run each subscription's commits are in the
   order of their inside-lock reads of Stripe, and its row is exactly the replay
   of those reads, so its grace clock is the one `GraceClock` describes.
   */
  lemma RowsReplayTheirReads(graceDays: nat, steps: seq<Step>, t: State)
    requires Runs(Init(graceDays), steps, t) && SteadyRun(Init(graceDays), steps)
    ensures forall i, j | 0 <= i < j < |t.history| && t.history[i].sub == t.history[j].sub ::
              t.history[i].version <= t.history[j].version
    ensures forall x | x in t.rows ::
              && Observed(t.history, x) != []
              && t.rows[x] == Replay(t.rows[x].account, Observed(t.history, x), t.graceDays)
  {
    forall x | x in t.rows
      ensures Observed(t.history, x) != []
      ensures t.rows[x] == Replay(t.rows[x].account, Observed(t.history, x), t.graceDays)
    {
      SteadyRunLosesNothing(graceDays, steps, t, x);
    }
    forall i, j | 0 <= i < j < |t.history| && t.history[i].sub == t.history[j].sub
      ensures t.history[i].version <= t.history[j].version
    {
      assert InReadOrder(t, t.history[i].sub) by { SteadyRunLosesNothing(graceDays, steps, t, t.history[i].sub); }
    }
  }

  /**
   A row that lost nothing and is past due is Pro exactly until the grace period
   after the observation that began its current past-due run.
   */
  lemma RowIsProUntilItsGraceEnds(graceDays: nat, steps: seq<Step>, s: State, x: string, k: int, now: int)
    requires Runs(Init(graceDays), steps, s) && x in s.rows
    requires !TwoNamed(StatesOf(steps, x), s.users)
    requires Observed(s.history, x) != [] && RunStart(Observed(s.history, x), k)
    ensures IsPro(s.rows[x], now) <==> now < Observed(s.history, x)[k].now + graceDays * MICROS_PER_DAY
  {
    LosingNeedsTwo(graceDays, steps, s, x);
    GraceDaysStay(Init(graceDays), steps, s);
    PastDueIsProExactlyForTheGrace(s.rows[x].account, Observed(s.history, x), k, graceDays, now);
  }

  lemma {:induction false} GraceDaysStay(s: State, steps: seq<Step>, s2: State)
    requires Runs(s, steps, s2)
    ensures s2.graceDays == s.graceDays
    decreases |steps|
  {
    if steps != [] {
      if !steps[0].Commit? { OnlyCommitsTouchRows(s, steps[0]); }
      GraceDaysStay(Apply(s, steps[0]), steps[1..], s2);
    }
  }
}
