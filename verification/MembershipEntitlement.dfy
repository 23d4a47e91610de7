/** Who has Pro, told by Stripe's own words alone. */
module MembershipEntitlement {
  import opened Wrappers
  import opened Memberships
  import opened MembershipProtocol
  import opened MembershipConvergence
  import opened MembershipHistory

  // One subscription

  /** Observation `k` began the unbroken stretch of "past_due" that still goes on. */
  predicate OverdueSince(seen: seq<Observation>, k: int) {
    && 0 <= k < |seen|
    && (forall i | k <= i < |seen| :: seen[i].sub.status == Some("past_due"))
    && (k > 0 ==> seen[k - 1].sub.status != Some("past_due"))
  }

  predicate InGrace(seen: seq<Observation>, graceDays: nat, now: int) {
    exists k | 0 <= k < |seen| :: OverdueSince(seen, k) && now < seen[k].now + graceDays * (24 * 60 * 60 * 1_000_000)
  }

  /** The last status Stripe gave entitles to Pro; a missing status, an empty one and every other do not. */
  predicate Entitled(seen: seq<Observation>, graceDays: nat, now: int)
    requires seen != []
  {
    var status := seen[|seen| - 1].sub.status;
    status == Some("active") || status == Some("trialing")
    || (status == Some("past_due") && InGrace(seen, graceDays, now))
  }

  lemma OverdueIsPastDue(seen: seq<Observation>, k: int)
    ensures OverdueSince(seen, k) <==> RunStart(seen, k)
  {
    assert forall i | 0 <= i < |seen| :: SeenPastDue(seen, i) <==> seen[i].sub.status == Some("past_due");
  }

  lemma OverdueIsInGraceExactly(account: string, seen: seq<Observation>, graceDays: nat, now: int)
    requires seen != [] && seen[|seen| - 1].sub.status == Some("past_due")
    ensures IsPro(Replay(account, seen, graceDays), now) <==> InGrace(seen, graceDays, now)
  {
    assert SeenPastDue(seen, |seen| - 1);
    GraceClock(account, seen, graceDays);
    var k :| GraceRunsFrom(Replay(account, seen, graceDays), seen, k, graceDays);
    forall j ensures OverdueSince(seen, j) <==> RunStart(seen, j) { OverdueIsPastDue(seen, j); }
    PastDueIsProExactlyForTheGrace(account, seen, k, graceDays, now);
    assert OverdueSince(seen, k);
  }

  /**
   After any observations a row is Pro exactly when the last status is "active"
   or "trialing", or is "past_due" and the grace that runs from the start of the
   current stretch is not over. Every other status fails closed.
   */
  lemma ProExactlyByTheLastStatus(account: string, seen: seq<Observation>, graceDays: nat, now: int)
    requires seen != []
    ensures IsPro(Replay(account, seen, graceDays), now) <==> Entitled(seen, graceDays, now)
  {
    ReplayKeepsIdentity(account, seen, graceDays);
    if seen[|seen| - 1].sub.status == Some("past_due") {
      OverdueIsInGraceExactly(account, seen, graceDays, now);
    }
  }

  /** Beside that a row shows the last state as it was read, older and newer layouts alike. */
  lemma RowMirrorsTheLast(account: string, seen: seq<Observation>, graceDays: nat)
    requires seen != []
    ensures var m, last := Replay(account, seen, graceDays), seen[|seen| - 1].sub;
      && m.account == account && m.interval == last.interval && m.customer == last.customer
      && (last.status.Some? && last.status.value != "" ==> m.status == last.status.value)
      && (last.status.None? || last.status.value == "" ==> m.status == "incomplete")
      && (last.periodEnd.Some? ==> m.periodEnd == last.periodEnd)
      && (last.periodEnd.None? ==> m.periodEnd == last.itemPeriodEnd)
      && (m.ending <==> last.cancelAtPeriodEnd || last.cancelAt.Some?)
  {
    ReplayKeepsIdentity(account, seen, graceDays);
  }

  // One account

  predicate ReplaysOf(account: string, rows: seq<Row>, seens: seq<seq<Observation>>, graceDays: nat) {
    |rows| == |seens| && forall i | 0 <= i < |rows| :: seens[i] != [] && rows[i] == Replay(account, seens[i], graceDays)
  }

  /** An account is Pro exactly when one of its subscriptions is entitled. */
  lemma AccountIsProExactly(account: string, rows: seq<Row>, seens: seq<seq<Observation>>, graceDays: nat, now: int)
    requires ReplaysOf(account, rows, seens, graceDays)
    ensures AccountIsPro(rows, now) <==> exists i | 0 <= i < |seens| :: Entitled(seens[i], graceDays, now)
  {
    forall i | 0 <= i < |rows| ensures IsPro(rows[i], now) <==> Entitled(seens[i], graceDays, now) {
      ProExactlyByTheLastStatus(account, seens[i], graceDays, now);
    }
  }

  // Rows of any run

  /** In every run, a row whose states name fewer than two users is Pro exactly when what was stored for it entitles. */
  lemma RowIsProExactly(graceDays: nat, steps: seq<Step>, s: State, x: string, now: int)
    requires Runs(Init(graceDays), steps, s) && x in s.rows && !TwoNamed(StatesOf(steps, x), s.users)
    ensures Observed(s.history, x) != []
    ensures IsPro(s.rows[x], now) <==> Entitled(Observed(s.history, x), graceDays, now)
  {
    LosingNeedsTwo(graceDays, steps, s, x);
    GraceDaysStay(Init(graceDays), steps, s);
    ProExactlyByTheLastStatus(s.rows[x].account, Observed(s.history, x), graceDays, now);
  }

  /**
   In every run, once all events are logged and unless the states can stray, what
   Stripe says now decides: an active or trialing subscription is Pro, and one that
   is neither, nor past due, is not, whatever was seen before.
   */
  lemma StripeDecidesOnceDrained(graceDays: nat, steps: seq<Step>, s: State, x: string, now: int)
    requires Runs(Init(graceDays), steps, s) && Drained(s) && x in s.rows && x in s.live
    requires !CanStray(StatesOf(steps, x), s.users)
    ensures var status := s.live[x].sub.status;
      && (status in {Some("active"), Some("trialing")} ==> IsPro(s.rows[x], now))
      && (status !in {Some("active"), Some("trialing"), Some("past_due")} ==> !IsPro(s.rows[x], now))
  {
    if !Agrees(s.rows[x], s.live[x].sub) {
      WrongRowStrayed(graceDays, steps, s, x);
    }
  }
}
