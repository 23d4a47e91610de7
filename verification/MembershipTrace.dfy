/**
 One subscription over any run, with no hypothesis: how its states, its row and
 the handlers at work on it hang together. What can go wrong is named where it
 starts: a second account that was claimed, or an event found to name nobody.
 Here: the invariant, and the steps that leave Stripe and the rows alone.
 */
module MembershipTrace {
  import opened Wrappers
  import opened Memberships
  import opened MembershipProtocol

  // What holds of the whole state

  ghost predicate Sound(s: State) {
    && (forall e | e in s.log :: e in s.sent)
    && (forall h | h in s.handlers ::
          s.handlers[h].event in s.sent && s.handlers[h].target == s.sent[s.handlers[h].event].target)
    && (forall e | e in s.sent && s.sent[e].target.Of? :: s.sent[e].target.sub in s.live)
    && (forall a | a in s.locks :: s.locks[a] in s.handlers)
  }

  lemma AdvanceKeepsSound(s: State, h: nat, phase: Phase)
    requires Sound(s) && h in s.handlers
    ensures Sound(Advance(s, h, phase))
  {
  }

  lemma FinishKeepsSound(s: State, h: nat)
    requires Sound(s)
    ensures Sound(Finish(s, h))
  {
  }

  lemma CommitKeepsSound(s: State, h: nat)
    requires Sound(s) && Enabled(s, Step.Commit(h))
    ensures Sound(Committed(s, h))
  {
    FinishKeepsSound(s, h);
  }

  lemma LockKeepsSound(s: State, h: nat)
    requires Sound(s) && Enabled(s, Lock(h))
    ensures Sound(LockTaken(s, h))
  {
    var account := s.handlers[h].phase.account;
    AdvanceKeepsSound(s, h, if account in s.users then Locked(account) else Logging(Unmatched, Some(account)));
  }

  lemma CheckLogKeepsSound(s: State, h: nat)
    requires Sound(s) && Enabled(s, CheckLog(h))
    ensures Sound(LogChecked(s, h))
  {
    var hd := s.handlers[h];
    if hd.event == "" || hd.event in s.log {
      FinishKeepsSound(s, h);
    } else {
      match hd.target
      case NotOurs => AdvanceKeepsSound(s, h, Logging(Ignored, None));
      case NoSubscription => AdvanceKeepsSound(s, h, Logging(Unmatched, None));
      case Of(_) => AdvanceKeepsSound(s, h, NotSeen);
    }
  }

  lemma LogOnlyKeepsSound(s: State, h: nat)
    requires Sound(s) && Enabled(s, LogOnly(h))
    ensures Sound(OnlyLogged(s, h))
  {
    FinishKeepsSound(s, h);
  }

  lemma OutsideKeepsSound(s: State, step: Step)
    requires Sound(s) && Enabled(s, step) && (step.StripeChange? || step.StripeNotice? || step.UserJoins? || step.Deliver?)
    ensures Sound(Apply(s, step))
  {
  }

  lemma StepKeepsSound(s: State, step: Step)
    requires Sound(s) && Enabled(s, step)
    ensures Sound(Apply(s, step))
  {
    match step
    case CheckLog(h) => CheckLogKeepsSound(s, h);
    case FirstRead(h) => AdvanceKeepsSound(s, h, FirstReadDone(s, h).handlers[h].phase);
    case Resolve(h) => AdvanceKeepsSound(s, h, AccountResolved(s, h).handlers[h].phase);
    case Lock(h) => LockKeepsSound(s, h);
    case SecondRead(h) => AdvanceKeepsSound(s, h, SecondReadDone(s, h).handlers[h].phase);
    case ReadRow(h) => AdvanceKeepsSound(s, h, RowReadDone(s, h).handlers[h].phase);
    case Commit(h) => CommitKeepsSound(s, h);
    case LogOnly(h) => LogOnlyKeepsSound(s, h);
    case Fail(h) => FinishKeepsSound(s, h);
    case _ => OutsideKeepsSound(s, step);
  }

  // What one subscription has been through

  /** The subscription's states so far, and how many of them it had while no row bound it. */
  datatype Trace = Trace(states: seq<Subscription>, early: nat)

  predicate Claims(t: Trace, k: nat, a: string) {
    k < |t.states| && t.states[k].claimed == Some(a)
  }

  /** State `k`, an early one before `hi`, claims `a`. */
  predicate EarlyClaim(t: Trace, hi: nat, a: string) {
    exists k: nat | k < hi && k < t.early :: Claims(t, k, a)
  }

  predicate RivalIs(t: Trace, users: set<string>, a: string, b: string) {
    b in users && b != a && EarlyClaim(t, t.early, b)
  }

  /** An early state claims another account we have, so another lock could be taken. */
  predicate Rival(t: Trace, users: set<string>, a: string) {
    exists b | b in users :: RivalIs(t, users, a, b)
  }

  predicate ClaimsOther(t: Trace, k: nat, a: string) {
    k < |t.states| && t.states[k].claimed != Some(a)
  }

  /** From state `w` on an early state did not claim `a`, so its event could be found to name nobody. */
  predicate Slipped(t: Trace, w: nat, a: string) {
    exists k: nat | w <= k < t.early :: ClaimsOther(t, k, a)
  }

  predicate Excused(t: Trace, users: set<string>, w: nat, a: string) {
    Rival(t, users, a) || Slipped(t, w, a)
  }

  /** `e` is a settled event of `x`. */
  predicate Settles(s: State, x: string, e: string) {
    e in s.sent && s.sent[e].target == Of(x) && Settled(s, e)
  }

  /** An early state up to `v` claims `a`, and whatever is settled beyond `v` is excused. */
  ghost predicate Knows(s: State, x: string, t: Trace, a: string, v: nat) {
    && a in s.users && v < |t.states| && EarlyClaim(t, v + 1, a)
    && forall e | Settles(s, x, e) && s.sent[e].version > v :: Excused(t, s.users, s.sent[e].version, a)
  }

  predicate Holds(s: State, h: nat, a: string) {
    a in s.users && a in s.locks && s.locks[a] == h
  }

  predicate IsState(t: Trace, k: nat, sub: Subscription) {
    k < |t.states| && t.states[k] == sub
  }

  predicate SeenFrom(t: Trace, w: nat, sub: Subscription) {
    exists k: nat | w <= k < |t.states| :: IsState(t, k, sub)
  }

  /** The account is the row's, or an early state from `w` on claims it. */
  predicate AccountFits(s: State, x: string, t: Trace, w: nat, a: string) {
    || (x in s.rows && s.rows[x].account == a)
    || exists k: nat | w <= k < t.early :: Claims(t, k, a)
  }

  /** What a handler that holds the lock of `a` knows from its read of state `v`. */
  ghost predicate InsideFits(s: State, x: string, t: Trace, h: nat, w: nat, a: string, sub: Subscription, v: nat) {
    && Holds(s, h, a) && Knows(s, x, t, a, v) && t.states[v] == sub && w <= v
    && (x in s.rowVersion && s.rowVersion[x] > v ==> Rival(t, s.users, a))
  }

  ghost predicate HandlerFits(s: State, x: string, t: Trace, h: nat)
    requires h in s.handlers && s.handlers[h].event in s.sent
  {
    var hd := s.handlers[h];
    var w := s.sent[hd.event].version;
    hd.target == Of(x) ==>
      match hd.phase
      case ReadOnce(first) => SeenFrom(t, w, first)
      case Resolved(a) => AccountFits(s, x, t, w, a)
      case Locked(a) => Holds(s, h, a) && EarlyClaim(t, t.early, a)
      case ReadTwice(a, sub, v) => InsideFits(s, x, t, h, w, a, sub, v)
      case RowRead(a, sub, v, row) =>
        && InsideFits(s, x, t, h, w, a, sub, v)
        && SameOwner(row, Lookup(s.rows, x)) && (row == Lookup(s.rows, x) || Rival(t, s.users, a))
      case _ => true
  }

  /** A row that was read is still there, with its account. */
  predicate SameOwner(read: Option<Row>, now: Option<Row>) {
    read.Some? ==> now.Some? && now.value.account == read.value.account
  }

  ghost predicate StatesFit(s: State, x: string, t: Trace) {
    && (x in s.live <==> t.states != [])
    && (x in s.live ==> s.live[x] == Live(t.states[|t.states| - 1], |t.states| - 1))
    && (x in s.live ==> exists e :: Announces(s, e, x))
    && (forall e | e in s.sent && s.sent[e].target == Of(x) :: s.sent[e].version < |t.states|)
    && t.early <= |t.states| && (x !in s.rows ==> t.early == |t.states|)
  }

  ghost predicate RowFits(s: State, x: string, t: Trace) {
    && (x in s.rows <==> x in s.rowVersion)
    && (x in s.rows ==>
      && s.rows[x].account in s.users && EarlyClaim(t, t.early, s.rows[x].account)
      && s.rowVersion[x] < |t.states| && Agrees(s.rows[x], t.states[s.rowVersion[x]])
      && exists a :: Knows(s, x, t, a, s.rowVersion[x]))
  }

  ghost predicate HandlersFit(s: State, x: string, t: Trace) {
    && (forall h | h in s.handlers :: s.handlers[h].event in s.sent)
    && forall h | h in s.handlers :: HandlerFits(s, x, t, h)
  }

  ghost predicate Fits(s: State, x: string, t: Trace) {
    Sound(s) && StatesFit(s, x, t) && RowFits(s, x, t) && HandlersFit(s, x, t)
  }

  /** The trace after one step: only a change of `x` adds a state, and only while there is no row is it an early one. */
  function Next(s: State, x: string, t: Trace, step: Step): Trace {
    var states := t.states + StatesOfStep(step, x);
    Trace(states, if x in s.rows then t.early else |states|)
  }

  // Growth

  predicate Grows(t: Trace, u: Trace) {
    t.states <= u.states && t.early <= u.early
  }

  lemma EarlyClaimGrows(t: Trace, u: Trace, hi: nat, hi2: nat, a: string)
    requires Grows(t, u) && hi <= hi2 && EarlyClaim(t, hi, a)
    ensures EarlyClaim(u, hi2, a)
  {
    var k: nat :| k < hi && k < t.early && Claims(t, k, a);
    assert Claims(u, k, a);
  }

  lemma RivalGrows(t: Trace, u: Trace, users: set<string>, more: set<string>, a: string)
    requires Grows(t, u) && users <= more && Rival(t, users, a)
    ensures Rival(u, more, a)
  {
    var b :| b in users && RivalIs(t, users, a, b);
    EarlyClaimGrows(t, u, t.early, u.early, b);
    assert RivalIs(u, more, a, b);
  }

  lemma ExcusedGrows(t: Trace, u: Trace, users: set<string>, more: set<string>, w: nat, a: string)
    requires Grows(t, u) && users <= more && Excused(t, users, w, a)
    ensures Excused(u, more, w, a)
  {
    if Rival(t, users, a) {
      RivalGrows(t, u, users, more, a);
    } else {
      var k: nat :| w <= k < t.early && ClaimsOther(t, k, a);
      assert ClaimsOther(u, k, a);
    }
  }

  /** What is settled in `s2` was settled in `s`, or is excused for every account that was there. */
  ghost predicate SettlesFairly(s: State, s2: State, x: string, t: Trace) {
    forall e | Settles(s2, x, e) ::
      || (Settles(s, x, e) && s2.sent[e] == s.sent[e])
      || forall a | a in s.users :: Excused(t, s2.users, s2.sent[e].version, a)
  }

  lemma KnowsGrows(s: State, s2: State, x: string, t: Trace, u: Trace, a: string, v: nat)
    requires Knows(s, x, t, a, v) && Grows(t, u) && s.users <= s2.users && SettlesFairly(s, s2, x, u)
    ensures Knows(s2, x, u, a, v)
  {
    EarlyClaimGrows(t, u, v + 1, v + 1, a);
    forall e | Settles(s2, x, e) && s2.sent[e].version > v ensures Excused(u, s2.users, s2.sent[e].version, a) {
      if Settles(s, x, e) && s2.sent[e] == s.sent[e] {
        ExcusedGrows(t, u, s.users, s2.users, s.sent[e].version, a);
      }
    }
  }

  /** Nothing about the row of `x` changed, and the rest only grew. */
  ghost predicate Extends(s: State, s2: State, x: string, t: Trace, u: Trace) {
    && Grows(t, u) && s.users <= s2.users && SettlesFairly(s, s2, x, u)
    && Lookup(s2.rows, x) == Lookup(s.rows, x)
    && (x in s2.rowVersion <==> x in s.rowVersion) && (x in s.rowVersion ==> s2.rowVersion[x] == s.rowVersion[x])
  }

  lemma RowFitsStill(s: State, s2: State, x: string, t: Trace, u: Trace)
    requires RowFits(s, x, t) && Extends(s, s2, x, t, u)
    ensures RowFits(s2, x, u)
  {
    assert x in s.rows <==> Lookup(s.rows, x).Some?;
    assert x in s2.rows <==> Lookup(s2.rows, x).Some?;
    if x in s.rows {
      EarlyClaimGrows(t, u, t.early, u.early, s.rows[x].account);
      var a :| Knows(s, x, t, a, s.rowVersion[x]);
      KnowsGrows(s, s2, x, t, u, a, s.rowVersion[x]);
    }
  }

  lemma InsideFitsStill(s: State, s2: State, x: string, t: Trace, u: Trace, h: nat, w: nat, a: string,
                        sub: Subscription, v: nat)
    requires InsideFits(s, x, t, h, w, a, sub, v) && Extends(s, s2, x, t, u) && Holds(s2, h, a)
    ensures InsideFits(s2, x, u, h, w, a, sub, v)
  {
    KnowsGrows(s, s2, x, t, u, a, v);
    if Rival(t, s.users, a) {
      RivalGrows(t, u, s.users, s2.users, a);
    }
  }

  lemma AccountFitsStill(s: State, s2: State, x: string, t: Trace, u: Trace, w: nat, a: string)
    requires AccountFits(s, x, t, w, a) && Grows(t, u) && Lookup(s2.rows, x) == Lookup(s.rows, x)
    ensures AccountFits(s2, x, u, w, a)
  {
    if k: nat :| w <= k < t.early && Claims(t, k, a) {
      assert Claims(u, k, a);
    } else {
      assert Lookup(s.rows, x).Some? && Lookup(s2.rows, x).Some?;
    }
  }

  /** A handler that did not move still fits. */
  lemma HandlerFitsStill(s: State, s2: State, x: string, t: Trace, u: Trace, h: nat)
    requires h in s.handlers && s.handlers[h].event in s.sent && HandlerFits(s, x, t, h)
    requires h in s2.handlers && s2.handlers[h] == s.handlers[h]
    requires s.handlers[h].event in s2.sent && s2.sent[s.handlers[h].event] == s.sent[s.handlers[h].event]
    requires forall a | Holds(s, h, a) :: Holds(s2, h, a)
    requires Extends(s, s2, x, t, u)
    ensures HandlerFits(s2, x, u, h)
  {
    var hd := s.handlers[h];
    var w := s.sent[hd.event].version;
    if hd.target == Of(x) {
      match hd.phase
      case ReadOnce(first) =>
        var k: nat :| w <= k < |t.states| && IsState(t, k, first);
        assert IsState(u, k, first);
      case Resolved(a) => AccountFitsStill(s, s2, x, t, u, w, a);
      case Locked(a) => EarlyClaimGrows(t, u, t.early, u.early, a);
      case ReadTwice(a, sub, v) => InsideFitsStill(s, s2, x, t, u, h, w, a, sub, v);
      case RowRead(a, sub, v, _) =>
        InsideFitsStill(s, s2, x, t, u, h, w, a, sub, v);
        if Rival(t, s.users, a) { RivalGrows(t, u, s.users, s2.users, a); }
      case _ =>
    }
  }

  // Steps that leave Stripe and the rows alone

  ghost predicate SameBooks(s: State, s2: State) {
    s2.live == s.live && s2.sent == s.sent && s2.rows == s.rows && s2.rowVersion == s.rowVersion && s.users <= s2.users
  }

  /** Every handler but `h` is where it was and holds what it held. */
  ghost predicate OnlyMoves(s: State, s2: State, h: nat) {
    && (forall k | k in s2.handlers && k != h :: k in s.handlers && s2.handlers[k] == s.handlers[k])
    && (forall a | a in s.locks && s.locks[a] != h :: a in s2.locks && s2.locks[a] == s.locks[a])
  }

  lemma QuietMove(s: State, s2: State, x: string, t: Trace, h: nat)
    requires Fits(s, x, t) && Sound(s2) && SameBooks(s, s2) && OnlyMoves(s, s2, h) && SettlesFairly(s, s2, x, t)
    requires h in s2.handlers ==> HandlerFits(s2, x, t, h)
    ensures Fits(s2, x, t)
  {
    assert Extends(s, s2, x, t, t);
    RowFitsStill(s, s2, x, t, t);
    assert StatesFit(s2, x, t) by {
      if x in s.live {
        var e :| Announces(s, e, x);
        assert Announces(s2, e, x);
      }
    }
    forall k | k in s2.handlers ensures HandlerFits(s2, x, t, k) {
      if k != h { HandlerFitsStill(s, s2, x, t, t, k); }
    }
  }

  /** No event of `x` is newly settled. */
  ghost predicate SettlesNoMore(s: State, s2: State, x: string) {
    forall e | Settles(s2, x, e) :: Settles(s, x, e)
  }

  lemma FinishSettlesNoMore(s: State, h: nat, x: string)
    ensures SettlesNoMore(s, Finish(s, h), x)
  {
    var s2 := Finish(s, h);
    forall e | Settles(s2, x, e) ensures Settles(s, x, e) {
      if k :| k in s2.handlers && Logs(s2, k, e) {
        assert Logs(s, k, e);
      }
    }
  }

  lemma AdvanceSettlesNoMore(s: State, h: nat, phase: Phase, x: string)
    requires Sound(s) && h in s.handlers && (!phase.Logging? || s.handlers[h].target != Of(x))
    ensures SettlesNoMore(s, Advance(s, h, phase), x)
  {
    var s2 := Advance(s, h, phase);
    forall e | Settles(s2, x, e) ensures Settles(s, x, e) {
      if e !in s.log {
        var k :| k in s2.handlers && Logs(s2, k, e);
        assert k != h && Logs(s, k, e);
      }
    }
  }

  lemma FinishFits(s: State, x: string, t: Trace, h: nat)
    requires Fits(s, x, t)
    ensures Fits(Finish(s, h), x, t)
  {
    FinishSettlesNoMore(s, h, x);
    FinishKeepsSound(s, h);
    QuietMove(s, Finish(s, h), x, t, h);
  }

  lemma AdvanceFits(s: State, x: string, t: Trace, h: nat, phase: Phase)
    requires Fits(s, x, t) && h in s.handlers && (!phase.Logging? || s.handlers[h].target != Of(x))
    requires HandlerFits(Advance(s, h, phase), x, t, h)
    ensures Fits(Advance(s, h, phase), x, t)
  {
    AdvanceSettlesNoMore(s, h, phase, x);
    AdvanceKeepsSound(s, h, phase);
    QuietMove(s, Advance(s, h, phase), x, t, h);
  }

  /** A handler that finds no account for an event settles it; from the state it read on nobody we have was claimed. */
  lemma UnmatchedFits(s: State, x: string, t: Trace, h: nat, named: Option<string>)
    requires Fits(s, x, t) && h in s.handlers && s.handlers[h].target == Of(x)
    requires forall a | a in s.users :: Slipped(t, s.sent[s.handlers[h].event].version, a)
    ensures Fits(Advance(s, h, Logging(Unmatched, named)), x, t)
  {
    var s2 := Advance(s, h, Logging(Unmatched, named));
    forall e | Settles(s2, x, e)
      ensures || (Settles(s, x, e) && s2.sent[e] == s.sent[e])
              || forall a | a in s.users :: Excused(t, s2.users, s2.sent[e].version, a)
    {
      if e !in s.log && e != s.handlers[h].event {
        var k :| k in s2.handlers && Logs(s2, k, e);
        assert Logs(s, k, e);
      }
    }
    AdvanceKeepsSound(s, h, Logging(Unmatched, named));
    QuietMove(s, s2, x, t, h);
  }

  /** A phase that knows nothing fits any handler. */
  lemma IdleAdvanceFits(s: State, x: string, t: Trace, h: nat, phase: Phase)
    requires Fits(s, x, t) && h in s.handlers && (phase.NotSeen? || (phase.Logging? && s.handlers[h].target != Of(x)))
    ensures Fits(Advance(s, h, phase), x, t)
  {
    AdvanceFits(s, x, t, h, phase);
  }

  lemma CheckLogFits(s: State, x: string, t: Trace, h: nat)
    requires Fits(s, x, t) && Enabled(s, CheckLog(h))
    ensures Fits(LogChecked(s, h), x, t)
  {
    var hd := s.handlers[h];
    if hd.event == "" || hd.event in s.log {
      FinishFits(s, x, t, h);
    } else {
      IdleAdvanceFits(s, x, t, h, LogChecked(s, h).handlers[h].phase);
    }
  }

  lemma FirstReadFits(s: State, x: string, t: Trace, h: nat)
    requires Fits(s, x, t) && Enabled(s, FirstRead(h))
    ensures Fits(FirstReadDone(s, h), x, t)
  {
    var first := s.live[s.handlers[h].target.sub].sub;
    if s.handlers[h].target == Of(x) {
      assert IsState(t, |t.states| - 1, first);
    }
    AdvanceFits(s, x, t, h, ReadOnce(first));
  }

  lemma ResolveFits(s: State, x: string, t: Trace, h: nat)
    requires Fits(s, x, t) && Enabled(s, Resolve(h))
    ensures Fits(AccountResolved(s, h), x, t)
  {
    var hd := s.handlers[h];
    assert HandlerFits(s, x, t, h);
    if hd.target != Of(x) {
      AdvanceFits(s, x, t, h, AccountResolved(s, h).handlers[h].phase);
    } else if x in s.rows {
      AdvanceFits(s, x, t, h, Resolved(s.rows[x].account));
    } else {
      var w := s.sent[hd.event].version;
      var k: nat :| w <= k < |t.states| && IsState(t, k, hd.phase.first);
      if hd.phase.first.claimed.None? {
        forall a | a in s.users ensures Slipped(t, w, a) { assert ClaimsOther(t, k, a); }
        UnmatchedFits(s, x, t, h, None);
      } else {
        assert Claims(t, k, hd.phase.first.claimed.value);
        AdvanceFits(s, x, t, h, Resolved(hd.phase.first.claimed.value));
      }
    }
  }

  lemma LockingSettlesNoMore(s: State, h: nat, x: string, e: string)
    requires Sound(s) && Enabled(s, Lock(h)) && s.handlers[h].phase.account in s.users
    requires Settles(LockTaken(s, h), x, e)
    ensures Settles(s, x, e)
  {
    if k :| k in LockTaken(s, h).handlers && Logs(LockTaken(s, h), k, e) {
      assert k != h && Logs(s, k, e);
    }
  }

  lemma LockingFits(s: State, x: string, t: Trace, h: nat)
    requires Fits(s, x, t) && Enabled(s, Lock(h)) && s.handlers[h].phase.account in s.users
    ensures Fits(LockTaken(s, h), x, t)
  {
    var a, s2 := s.handlers[h].phase.account, LockTaken(s, h);
    forall e | Settles(s2, x, e) ensures Settles(s, x, e) { LockingSettlesNoMore(s, h, x, e); }
    LockKeepsSound(s, h);
    LockedFits(s, x, t, h);
    QuietMove(s, s2, x, t, h);
  }

  lemma LockedFits(s: State, x: string, t: Trace, h: nat)
    requires Fits(s, x, t) && Enabled(s, Lock(h)) && s.handlers[h].phase.account in s.users
    ensures HandlerFits(LockTaken(s, h), x, t, h)
  {
    assert HandlerFits(s, x, t, h);
  }

  lemma LockFits(s: State, x: string, t: Trace, h: nat)
    requires Fits(s, x, t) && Enabled(s, Lock(h))
    ensures Fits(LockTaken(s, h), x, t)
  {
    var hd := s.handlers[h];
    var account := hd.phase.account;
    assert HandlerFits(s, x, t, h);
    if account in s.users {
      LockingFits(s, x, t, h);
    } else if hd.target != Of(x) {
      AdvanceFits(s, x, t, h, Logging(Unmatched, Some(account)));
    } else {
      var w := s.sent[hd.event].version;
      var k: nat :| w <= k < t.early && Claims(t, k, account);
      forall a | a in s.users ensures Slipped(t, w, a) { assert ClaimsOther(t, k, a); }
      UnmatchedFits(s, x, t, h, Some(account));
    }
  }

  lemma SecondReadFits(s: State, x: string, t: Trace, h: nat)
    requires Fits(s, x, t) && Enabled(s, SecondRead(h))
    ensures Fits(SecondReadDone(s, h), x, t)
  {
    var now := s.live[s.handlers[h].target.sub];
    AdvanceFits(s, x, t, h, ReadTwice(s.handlers[h].phase.account, now.sub, now.version));
  }

  lemma ReadRowFits(s: State, x: string, t: Trace, h: nat)
    requires Fits(s, x, t) && Enabled(s, ReadRow(h))
    ensures Fits(RowReadDone(s, h), x, t)
  {
    var p := s.handlers[h].phase;
    var phase := RowRead(p.account, p.sub, p.version, Lookup(s.rows, s.handlers[h].target.sub));
    assert HandlerFits(s, x, t, h);
    AdvanceSettlesNoMore(s, h, phase, x);
    if s.handlers[h].target == Of(x) {
      var w := s.sent[s.handlers[h].event].version;
      InsideFitsStill(s, Advance(s, h, phase), x, t, t, h, w, p.account, p.sub, p.version);
    }
    AdvanceFits(s, x, t, h, phase);
  }

  lemma LogOnlySettlesNoMore(s: State, h: nat, x: string, e: string)
    requires Enabled(s, LogOnly(h)) && Settles(OnlyLogged(s, h), x, e)
    ensures Settles(s, x, e)
  {
    assert Logs(s, h, s.handlers[h].event);
    if k :| k in OnlyLogged(s, h).handlers && Logs(OnlyLogged(s, h), k, e) { assert Logs(s, k, e); }
  }

  lemma LogOnlyFits(s: State, x: string, t: Trace, h: nat)
    requires Fits(s, x, t) && Enabled(s, LogOnly(h))
    ensures Fits(OnlyLogged(s, h), x, t)
  {
    forall e | Settles(OnlyLogged(s, h), x, e) ensures Settles(s, x, e) { LogOnlySettlesNoMore(s, h, x, e); }
    LogOnlyKeepsSound(s, h);
    QuietMove(s, OnlyLogged(s, h), x, t, h);
  }

  lemma DeliverFits(s: State, x: string, t: Trace, h: nat, event: string, now: int)
    requires Fits(s, x, t) && Enabled(s, Deliver(h, event, now))
    ensures Fits(Delivered(s, h, event, now), x, t)
  {
    var s2 := Delivered(s, h, event, now);
    forall e | Settles(s2, x, e) ensures Settles(s, x, e) {
      if k :| k in s2.handlers && Logs(s2, k, e) { assert Logs(s, k, e); }
    }
    QuietMove(s, s2, x, t, h);
  }

  lemma UserJoinsFits(s: State, x: string, t: Trace, user: string)
    requires Fits(s, x, t)
    ensures Fits(Joined(s, user), x, t)
  {
    var s2 := Joined(s, user);
    forall e | Settles(s2, x, e) ensures Settles(s, x, e) {
      if k :| k in s2.handlers && Logs(s2, k, e) { assert Logs(s, k, e); }
    }
    assert Extends(s, s2, x, t, t);
    RowFitsStill(s, s2, x, t, t);
    if x in s.live {
      var e :| Announces(s, e, x);
      assert Announces(s2, e, x);
    }
    forall k | k in s2.handlers ensures HandlerFits(s2, x, t, k) {
      HandlerFitsStill(s, s2, x, t, t, k);
    }
  }
}
