/** The membership row, its grace clock, and the one rule for "this account is Pro". */
module Memberships {
  import opened Wrappers

  // Times are UTC microseconds.

  const PAID: set<string> := {"active", "trialing"}
  const PAST_DUE := "past_due"
  const MICROS_PER_DAY := 86_400_000_000

  /** The fields of Stripe's subscription object that the synchroniser reads. */
  datatype Subscription = Subscription(
    status: Option<string>,
    interval: Option<string>,
    customer: Option<string>,
    periodEnd: Option<int>,
    itemPeriodEnd: Option<int>,
    cancelAtPeriodEnd: bool,
    cancelAt: Option<int>,
    claimed: Option<string>)
  {
    function Status(): string {
      if status.Some? && status.value != "" then status.value else "incomplete"
    }

    /** Older API versions put the period end on the subscription, newer ones on its item. */
    function PeriodEnd(): Option<int> {
      if periodEnd.Some? then periodEnd else itemPeriodEnd
    }

    function Ending(): bool {
      cancelAtPeriodEnd || cancelAt.Some?
    }
  }

  /** One membership row as a value. */
  datatype Row = Row(
    account: string,
    status: string,
    interval: Option<string>,
    customer: Option<string>,
    periodEnd: Option<int>,
    ending: bool,
    graceUntil: Option<int>,
    createdAt: int,
    updatedAt: int)

  /** The row `_sync` adds before its first store. */
  function NewRow(account: string, now: int): Row {
    Row(account, "", None, None, None, false, None, now, now)
  }

  function Stored(m: Row, sub: Subscription, now: int, graceDays: nat): Row {
    m.(status := sub.Status(),
    interval := sub.interval,
    customer := sub.customer,
    periodEnd := sub.PeriodEnd(),
    ending := sub.Ending(),
    graceUntil :=
      if sub.Status() != PAST_DUE then None
      else if m.graceUntil.Some? then m.graceUntil
      else Some(now + graceDays * MICROS_PER_DAY),
    updatedAt := now)
  }

  /** What a reader compares with Stripe: every field except the clocks and the owner. */
  predicate Agrees(m: Row, sub: Subscription) {
    && m.status == sub.Status()
    && m.interval == sub.interval
    && m.customer == sub.customer
    && m.periodEnd == sub.PeriodEnd()
    && m.ending == sub.Ending()
  }

  /** The membership object the webhook handler updates in place. */
  class Membership {
    const account: string
    const createdAt: int
    var status: string
    var interval: Option<string>
    var customer: Option<string>
    var periodEnd: Option<int>
    var ending: bool
    var graceUntil: Option<int>
    var updatedAt: int

    function Value(): Row
      reads this
    {
      Row(account, status, interval, customer, periodEnd, ending, graceUntil, createdAt, updatedAt)
    }

    constructor (account: string, now: int)
      ensures Value() == NewRow(account, now)
    {
      this.account, createdAt := account, now;
      status, interval, customer, periodEnd := "", None, None, None;
      ending, graceUntil, updatedAt := false, None, now;
    }

    method Store(sub: Subscription, now: int, graceDays: nat)
      modifies this
      ensures Value() == Stored(old(Value()), sub, now, graceDays)
      ensures Agrees(Value(), sub)
    {
      status := sub.Status();
      interval := sub.interval;
      customer := sub.customer;
      periodEnd := sub.PeriodEnd();
      ending := sub.Ending();
      if status == PAST_DUE {
        if graceUntil.None? {
          graceUntil := Some(now + graceDays * MICROS_PER_DAY);
        }
      } else {
        graceUntil := None;
      }
      updatedAt := now;
    }
  }

  // The grace clock over a whole history of observations

  /** One store: the subscription that was read and the handler's own clock. */
  datatype Observation = Observation(sub: Subscription, now: int)

  function Replay(account: string, seen: seq<Observation>, graceDays: nat): Row
    requires seen != []
  {
    var last := seen[|seen| - 1];
    var before :=
      if |seen| == 1 then NewRow(account, last.now) else Replay(account, seen[..|seen| - 1], graceDays);
    Stored(before, last.sub, last.now, graceDays)
  }

  predicate SeenPastDue(seen: seq<Observation>, i: int)
    requires 0 <= i < |seen|
  {
    seen[i].sub.Status() == PAST_DUE
  }

  /** `k` is where the unbroken past-due run that reaches the end of `seen` began. */
  predicate RunStart(seen: seq<Observation>, k: int) {
    && 0 <= k < |seen|
    && (forall i | k <= i < |seen| :: SeenPastDue(seen, i))
    && (k > 0 ==> !SeenPastDue(seen, k - 1))
  }

  /** The row's grace runs from observation `k`, the start of the current past-due run. */
  predicate GraceRunsFrom(m: Row, seen: seq<Observation>, k: int, graceDays: nat) {
    RunStart(seen, k) && m.graceUntil == Some(seen[k].now + graceDays * MICROS_PER_DAY)
  }

  lemma RunGrows(seen: seq<Observation>, k: int)
    requires |seen| > 1 && RunStart(seen[..|seen| - 1], k)
    requires SeenPastDue(seen, |seen| - 1)
    ensures RunStart(seen, k)
  {
    var before := seen[..|seen| - 1];
    forall i | k <= i < |seen| ensures SeenPastDue(seen, i) {
      assert i < |before| ==> SeenPastDue(before, i);
    }
    assert k > 0 ==> !SeenPastDue(before, k - 1);
  }

  lemma {:induction false} ReplayKeepsIdentity(account: string, seen: seq<Observation>, graceDays: nat)
    requires seen != []
    ensures var m := Replay(account, seen, graceDays);
      m.account == account && m.createdAt == seen[0].now && m.updatedAt == seen[|seen| - 1].now
    ensures Agrees(Replay(account, seen, graceDays), seen[|seen| - 1].sub)
  {
    if |seen| > 1 {
      ReplayKeepsIdentity(account, seen[..|seen| - 1], graceDays);
    }
  }

  lemma GraceStarts(account: string, seen: seq<Observation>, graceDays: nat)
    requires seen != [] && SeenPastDue(seen, |seen| - 1) && (|seen| > 1 ==> !SeenPastDue(seen, |seen| - 2))
    requires |seen| > 1 ==> Replay(account, seen[..|seen| - 1], graceDays).graceUntil == None
    ensures GraceRunsFrom(Replay(account, seen, graceDays), seen, |seen| - 1, graceDays)
  {
  }

  lemma GraceGoesOn(account: string, seen: seq<Observation>, k: int, graceDays: nat)
    requires |seen| > 1 && SeenPastDue(seen, |seen| - 1)
    requires GraceRunsFrom(Replay(account, seen[..|seen| - 1], graceDays), seen[..|seen| - 1], k, graceDays)
    ensures GraceRunsFrom(Replay(account, seen, graceDays), seen, k, graceDays)
  {
    RunGrows(seen, k);
  }

  /**
   The grace clock: no grace unless the last observation is past due; otherwise
   it ends the grace period after the FIRST observation of the current run, so
   neither a retry nor another event restarts it and a recovery resets it.
   */
  lemma {:induction false} GraceClock(account: string, seen: seq<Observation>, graceDays: nat)
    requires seen != []
    ensures SeenPastDue(seen, |seen| - 1) ==>
              exists k :: GraceRunsFrom(Replay(account, seen, graceDays), seen, k, graceDays)
    ensures !SeenPastDue(seen, |seen| - 1) ==> Replay(account, seen, graceDays).graceUntil == None
  {
    var n := |seen| - 1;
    if n > 0 {
      GraceClock(account, seen[..n], graceDays);
      assert SeenPastDue(seen[..n], n - 1) == SeenPastDue(seen, n - 1);
    }
    if SeenPastDue(seen, n) {
      if n > 0 && SeenPastDue(seen, n - 1) {
        var k :| GraceRunsFrom(Replay(account, seen[..n], graceDays), seen[..n], k, graceDays);
        GraceGoesOn(account, seen, k, graceDays);
      } else {
        GraceStarts(account, seen, graceDays);
      }
    }
  }

  // Who is Pro

  predicate IsPro(m: Row, now: int) {
    || m.status in PAID
    || (m.status == PAST_DUE && m.graceUntil.Some? && m.graceUntil.value > now)
  }

  predicate AccountIsPro(rows: seq<Row>, now: int) {
    exists i | 0 <= i < |rows| :: IsPro(rows[i], now)
  }

  /**
   With no further events an account that stops being Pro never becomes Pro
   again, and it stops only when the last grace of a past-due row runs out.
   */
  lemma ProOnlyRunsOut(rows: seq<Row>, earlier: int, later: int)
    requires earlier <= later
    ensures AccountIsPro(rows, later) ==> AccountIsPro(rows, earlier)
    ensures AccountIsPro(rows, earlier) && !AccountIsPro(rows, later) ==>
      forall m | m in rows && IsPro(m, earlier) ::
        m.status == PAST_DUE && m.graceUntil.Some? && earlier < m.graceUntil.value <= later
  {
    if AccountIsPro(rows, later) {
      var i :| 0 <= i < |rows| && IsPro(rows[i], later);
      assert IsPro(rows[i], earlier);
    }
  }

  /**
   What the two together promise a paying customer: while every observation of a
   subscription since `k` is past due, its row is Pro exactly until the grace
   period after observation `k`, however many observations follow.
   */
  lemma {:induction false} PastDueIsProExactlyForTheGrace(account: string, seen: seq<Observation>, k: int,
                                                          graceDays: nat, now: int)
    requires RunStart(seen, k)
    ensures IsPro(Replay(account, seen, graceDays), now) <==> now < seen[k].now + graceDays * MICROS_PER_DAY
  {
    GraceClock(account, seen, graceDays);
    ReplayKeepsIdentity(account, seen, graceDays);
    assert SeenPastDue(seen, |seen| - 1);
    var j :| GraceRunsFrom(Replay(account, seen, graceDays), seen, j, graceDays);
  }

  // Which row the user is shown

  /** The first of the rows that satisfies `p`. */
  function FirstWhere(rows: seq<Row>, p: Row -> bool): (r: Option<Row>)
    ensures r.None? <==> forall m | m in rows :: !p(m)
    ensures r.Some? ==> exists i | 0 <= i < |rows| ::
                          rows[i] == r.value && p(r.value) && forall j | 0 <= j < i :: !p(rows[j])
  {
    if rows == [] then None
    else if p(rows[0]) then Some(rows[0])
    else
      var r := FirstWhere(rows[1..], p);
      assert forall m | m in rows :: m == rows[0] || m in rows[1..];
      assert r.Some? ==> exists i | 0 <= i < |rows| ::
                           rows[i] == r.value && p(r.value) && forall j | 0 <= j < i :: !p(rows[j]) by {
        if r.Some? {
          var i :| 0 <= i < |rows[1..]| && rows[1..][i] == r.value && p(r.value)
                   && forall j | 0 <= j < i :: !p(rows[1..][j]);
          assert rows[i + 1] == r.value;
          forall j | 0 <= j < i + 1 ensures !p(rows[j]) {
            assert j > 0 ==> rows[j] == rows[1..][j - 1];
          }
        }
      }
      r
  }

  function Primary(rows: seq<Row>, now: int): (r: Option<Row>)
    ensures r.None? <==> rows == []
    ensures r.Some? ==> r.value in rows && (IsPro(r.value, now) <==> AccountIsPro(rows, now))
    ensures r.Some? && (exists m | m in rows :: IsPro(m, now) && !m.ending) ==> !r.value.ending
  {
    var continuing := FirstWhere(rows, (m: Row) => IsPro(m, now) && !m.ending);
    if continuing.Some? then continuing
    else
      var pro := FirstWhere(rows, (m: Row) => IsPro(m, now));
      if pro.Some? then pro
      else if rows == [] then None
      else
        assert forall i | 0 <= i < |rows| :: rows[i] in rows;
        Some(rows[0])
  }
}
