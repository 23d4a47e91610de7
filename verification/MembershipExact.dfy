/** Which states of a subscription let some interleaving end badly: exact conditions. */
module MembershipExact {
  import opened Wrappers
  import opened Memberships
  import opened MembershipProtocol
  import opened MembershipSteps
  import opened MembershipConvergence
  import opened MembershipHistory
  import opened MembershipRuns
  import opened MembershipTimeline

  // One half of each condition holds of every run and is proved in
  // `MembershipConvergence` and `MembershipHistory`; for the other half
  // `MembershipTimeline` builds the run.

  // A wrong row

  /** A run with these states and users that logs every event and leaves the row wrong. */
  predicate EndsWrong(graceDays: nat, x: string, states: seq<Subscription>, users: set<string>, steps: seq<Step>, t: State) {
    && Runs(Init(graceDays), steps, t) && StatesOf(steps, x) == states && t.users == users && Drained(t)
    && x in t.rows && x in t.live && !Agrees(t.rows[x], t.live[x].sub)
  }

  lemma StrayIsReached(graceDays: nat, x: string, states: seq<Subscription>, users: set<string>)
    returns (steps: seq<Step>, t: State, m: nat)
    requires CanStray(states, users)
    ensures EndsWrong(graceDays, x, states, users, steps, t)
    ensures m < |states| && Agrees(t.rows[x], states[m]) && t.live[x].sub == states[|states| - 1]
  {
    var a;
    m, a :| m < |states| && a in users && StraysAt(states, users, m, a);
    var i: nat :| i < m + 1 && Names(states, i, a);
    var p := Plan(graceDays, x, states, users, i, m, a, None);
    if NamesAnother(states, users, a) {
      var b :| b in users && b != a && Named(states, |states|, b);
      var j: nat :| j < |states| && Names(states, j, b);
      p := p.(other := Some(Other(j, b)));
    } else if states[|states| - 1].claimed.Some? {
      NotNamedIsNotHere(states, users, a);
    }
    steps, t := WholeRun(p);
  }

  lemma NotNamedIsNotHere(states: seq<Subscription>, users: set<string>, a: string)
    requires states != [] && !NamesAnother(states, users, a)
    requires states[|states| - 1].claimed.Some? && states[|states| - 1].claimed != Some(a)
    ensures states[|states| - 1].claimed.value !in users
  {
    var b := states[|states| - 1].claimed.value;
    assert Names(states, |states| - 1, b);
    assert Named(states, |states|, b);
  }

  /**
   Convergence, exactly: some interleaving of these states of `x` and these users
   ends with every event logged and a wrong row if and only if the states can
   stray. It is a condition on what Stripe did alone; a run is any order of
   deliveries, duplicates, failures and steps of other subscriptions.
   */
  lemma RowsConvergeExactlyWhenNoneStrays(graceDays: nat, x: string, states: seq<Subscription>, users: set<string>)
    ensures (exists steps, t :: EndsWrong(graceDays, x, states, users, steps, t)) <==> CanStray(states, users)
  {
    if CanStray(states, users) {
      var steps, t, m := StrayIsReached(graceDays, x, states, users);
      assert EndsWrong(graceDays, x, states, users, steps, t);
    }
    forall steps, t | EndsWrong(graceDays, x, states, users, steps, t) ensures CanStray(states, users) {
      WrongRowStrayed(graceDays, steps, t, x);
    }
  }

  // A lost update

  predicate Loses(graceDays: nat, x: string, states: seq<Subscription>, users: set<string>, steps: seq<Step>, t: State) {
    Runs(Init(graceDays), steps, t) && StatesOf(steps, x) == states && t.users == users && !NothingLost(t, x)
  }

  lemma LossIsReached(graceDays: nat, x: string, states: seq<Subscription>, users: set<string>, i: nat, a: string, j: nat, b: string)
    returns (steps: seq<Step>, t: State)
    requires i < j && a in users && b in users && a != b && Names(states, i, a) && Names(states, j, b)
    ensures Loses(graceDays, x, states, users, steps, t)
  {
    steps, t := WholeRun(Plan(graceDays, x, states, users, i, i, a, Some(Other(j, b))));
    var k, l :| 0 <= k < l < |t.history|
      && t.history[k].sub == x && t.history[l].sub == x && t.history[k].version > t.history[l].version;
    assert !InReadOrder(t, x);
  }

  /**
   No lost update, exactly: some interleaving of these states and users commits
   an older read over a newer one if and only if the states name two of the users.
   */
  lemma UpdatesAreLostExactlyWhenTwoAreNamed(graceDays: nat, x: string, states: seq<Subscription>, users: set<string>)
    ensures (exists steps, t :: Loses(graceDays, x, states, users, steps, t)) <==> TwoNamed(states, users)
  {
    if TwoNamed(states, users) {
      var a :| a in users && Named(states, |states|, a) && NamesAnother(states, users, a);
      var b :| b in users && b != a && Named(states, |states|, b);
      var i: nat :| i < |states| && Names(states, i, a);
      var j: nat :| j < |states| && Names(states, j, b);
      var steps, t;
      if i < j {
        steps, t := LossIsReached(graceDays, x, states, users, i, a, j, b);
      } else {
        steps, t := LossIsReached(graceDays, x, states, users, j, b, i, a);
      }
      assert Loses(graceDays, x, states, users, steps, t);
    }
    forall steps, t | Loses(graceDays, x, states, users, steps, t) ensures TwoNamed(states, users) {
      LosingNeedsTwo(graceDays, steps, t, x);
    }
  }

  // No row

  predicate EndsUnbound(graceDays: nat, x: string, states: seq<Subscription>, founders: set<string>, users: set<string>,
                        steps: seq<Step>, t: State) {
    && Runs(Init(graceDays), steps, t) && StatesOf(steps, x) == states && t.users == users
    && Founders(Init(graceDays), steps, x, {}) == founders && Drained(t) && x !in t.rows
  }

  predicate NamesAFounder(states: seq<Subscription>, founders: set<string>) {
    states != [] && states[|states| - 1].claimed.Some? && states[|states| - 1].claimed.value in founders
  }

  /** Nobody's handler is at work. */
  function Idle(graceDays: nat, x: string, states: seq<Subscription>, users: set<string>): Plan {
    Plan(graceDays, x, states, users, |states|, |states|, "", None)
  }

  lemma IdlePlanIsReady(p: Plan)
    requires p == Idle(p.graceDays, p.x, p.states, p.users)
    ensures Ready(At(p, |p.states|)) && At(p, |p.states|).handlers == map[]
  {
    forall e | e in SentUpTo(p.x, |p.states|) ensures SentUpTo(p.x, |p.states|)[e].target == Of(p.x) {
      SentAre(p.x, |p.states|, e);
    }
  }

  /** Every event is logged, the row is still missing, and then the others join. */
  lemma EndsIdle(p: Plan, users: set<string>) returns (steps: seq<Step>, t: State)
    requires p == Idle(p.graceDays, p.x, p.states, p.users) && p.states != [] && p.users <= users
    requires !NamesAFounder(p.states, p.users)
    ensures Runs(At(p, |p.states|), steps, t) && NoChange(steps)
    ensures t.users == users && Drained(t) && p.x !in t.rows
  {
    var s := At(p, |p.states|);
    IdlePlanIsReady(p);
    var rest, m := DeliverOpen(s, {}, 0, 0);
    NoneOpenIsDrained(s, m);
    assert !OwnerIsHere(s, p.x) && Lookup(m.rows, p.x) == None;
    var joins := JoinAll(m, users);
    t := m.(users := m.users + users);
    assert m.users + users == users;
    RunsCompose(s, rest, m, joins, t);
    steps := rest + joins;
  }

  lemma UnboundIsReached(graceDays: nat, x: string, states: seq<Subscription>, founders: set<string>, users: set<string>)
    returns (steps: seq<Step>, t: State)
    requires states != [] && founders <= users && !NamesAFounder(states, founders)
    ensures EndsUnbound(graceDays, x, states, founders, users, steps, t)
  {
    var p := Idle(graceDays, x, states, founders);
    var line := FromTheStart(p);
    var rest;
    rest, t := EndsIdle(p, users);
    PlaysQuietly(x, At(p, |states|), founders, rest, t);
    PlaysOn(x, Init(graceDays), {}, line, At(p, |states|), states, founders, rest, t, [], founders);
    assert states + [] == states;
    steps := line + rest;
  }

  /**
   A subscription stays without a row, exactly: some run that logs every event
   leaves it so if and only if its last state names nobody who was there then.
   So the one that is owed a row and has none names an account that joined later.
   */
  lemma UnboundExactlyWhenNoFounderIsNamed(graceDays: nat, x: string, states: seq<Subscription>, founders: set<string>,
                                           users: set<string>)
    requires states != [] && founders <= users
    ensures (exists steps, t :: EndsUnbound(graceDays, x, states, founders, users, steps, t))
       <==> !NamesAFounder(states, founders)
  {
    if !NamesAFounder(states, founders) {
      var steps, t := UnboundIsReached(graceDays, x, states, founders, users);
      assert EndsUnbound(graceDays, x, states, founders, users, steps, t);
    }
    forall steps, t | EndsUnbound(graceDays, x, states, founders, users, steps, t) ensures !NamesAFounder(states, founders) {
      EveryRunFits(graceDays, steps, t, x);
      if NamesAFounder(states, founders) {
        FounderIsBound(graceDays, steps, t, x);
      }
    }
  }

  // Two ways to stray

  const PAYING := Subscription(Some("active"), None, None, None, None, false, None, Some("usr_1"))
  const MOVED := Subscription(Some("canceled"), None, None, None, None, false, None, Some("usr_2"))
  const CLEARED := Subscription(Some("canceled"), None, None, None, None, false, None, None)

  /** A subscription that was paying, and whose last state is ended and names another account or none. */
  lemma EndedStrays(last: Subscription, users: set<string>)
    requires last.Status() == "canceled" && last.claimed != Some("usr_1") && "usr_1" in users
    ensures StraysAt([PAYING, last], users, 0, "usr_1")
  {
    assert Names([PAYING, last], 0, "usr_1");
  }

  /** Every event is logged, Stripe ended the subscription, and the row is Pro for ever. */
  predicate PaidForEver(t: State) {
    && Drained(t) && "sub" in t.rows && "sub" in t.live && t.live["sub"].sub.Status() == "canceled"
    && t.rows["sub"].status == "active"
  }

  lemma PaidForEverIsReached(last: Subscription, users: set<string>) returns (steps: seq<Step>, t: State)
    requires last.Status() == "canceled" && last.claimed != Some("usr_1") && "usr_1" in users
    ensures Runs(Init(7), steps, t) && StatesOf(steps, "sub") == [PAYING, last] && t.users == users && PaidForEver(t)
    ensures forall now :: IsPro(t.rows["sub"], now)
    ensures forall other | Runs(Init(7), other, t) :: !SteadyRun(Init(7), other)
  {
    var states := [PAYING, last];
    EndedStrays(last, users);
    var m;
    steps, t, m := StrayIsReached(7, "sub", states, users);
    assert m == 0 by {
      assert states[1] == last;
    }
    forall other | Runs(Init(7), other, t) ensures !SteadyRun(Init(7), other) {
      if SteadyRun(Init(7), other) {
        Convergence(7, other, t);
      }
    }
  }

  /**
   The metadata is edited before the subscription is bound: two accounts, two
   locks, and the older read is stored last.
   */
  lemma EditedMetadataLosesTheCancellation() returns (steps: seq<Step>, t: State)
    ensures Runs(Init(7), steps, t) && StatesOf(steps, "sub") == [PAYING, MOVED] && PaidForEver(t)
    ensures forall now :: IsPro(t.rows["sub"], now)
    ensures forall other | Runs(Init(7), other, t) :: !SteadyRun(Init(7), other)
  {
    steps, t := PaidForEverIsReached(MOVED, {"usr_1", "usr_2"});
  }

  /**
   The metadata is cleared: one account and one lock. The cancellation names
   nobody and is logged as unmatched, and then the older read is stored.
   */
  lemma ClearedMetadataLosesTheCancellation() returns (steps: seq<Step>, t: State)
    ensures Runs(Init(7), steps, t) && StatesOf(steps, "sub") == [PAYING, CLEARED] && t.users == {"usr_1"} && PaidForEver(t)
    ensures forall now :: IsPro(t.rows["sub"], now)
  {
    steps, t := PaidForEverIsReached(CLEARED, {"usr_1"});
  }

  /** Metadata that is only filled in while unbound is harmless, though the run is not steady. */
  lemma FilledInMetadataConverges(first: Subscription, rest: seq<Subscription>, a: string, users: set<string>)
    requires first.claimed == None && forall k | 0 <= k < |rest| :: rest[k].claimed == Some(a)
    ensures !CanStray([first] + rest, users)
  {
    var states := [first] + rest;
    forall m: nat, c | m < |states| && c in users ensures !StraysAt(states, users, m, c) {
      if StraysAt(states, users, m, c) {
        OnlyOneIsNamed(first, rest, a, c, m + 1);
        assert states[|states| - 1] == rest[|rest| - 1];
        forall b | b in users && Named(states, |states|, b) ensures b == a { OnlyOneIsNamed(first, rest, a, b, |states|); }
      }
    }
  }

  lemma OnlyOneIsNamed(first: Subscription, rest: seq<Subscription>, a: string, c: string, hi: nat)
    requires first.claimed == None && forall k | 0 <= k < |rest| :: rest[k].claimed == Some(a)
    requires Named([first] + rest, hi, c)
    ensures c == a
  {
    var k: nat :| k < hi && Names([first] + rest, k, c);
    assert k > 0 && ([first] + rest)[k] == rest[k - 1];
  }
}
