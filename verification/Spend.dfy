/** Spend control: the budget check, the semaphore, the call and its row as separate steps. */
module Spend {
  import opened Collections

  const DAY: nat := 86400

  datatype Config = Config(enabled: bool, failClosed: bool, hard: nat, cap: nat)

  /** Ingest is metered but not gated. Costs are whole units of the smallest coin, times are seconds. */
  datatype Row = Row(at: nat, cost: nat, gated: bool)

  datatype Phase = Waiting | InFlight | Returned
  datatype Call = Call(process: nat, gated: bool, phase: Phase)

  datatype World = World(now: nat, rows: seq<Row>, calls: map<nat, Call>)

  function DayStart(now: nat): nat {
    now - now % DAY
  }

  /** Recorded at or after `since`; with `gatedOnly`, leaving ingest out. */
  function SpendSince(rows: seq<Row>, since: nat, gatedOnly: bool): nat {
    if rows == [] then 0
    else
      var r := rows[|rows| - 1];
      SpendSince(rows[..|rows| - 1], since, gatedOnly)
      + if r.at >= since && (r.gated || !gatedOnly) then r.cost else 0
  }

  function Today(w: World): nat {
    SpendSince(w.rows, DayStart(w.now), false)
  }

  function GatedToday(w: World): nat {
    SpendSince(w.rows, DayStart(w.now), true)
  }

  /** `enforce_budget`: at the limit the call is refused, and so it is when the table cannot be read and the budget fails closed. */
  predicate Admits(cfg: Config, readable: bool, spend: nat) {
    !cfg.enabled || (if readable then spend < cfg.hard else !cfg.failClosed)
  }

  datatype Step =
    | Tick(to: nat)
    | Admit(id: nat, process: nat, gated: bool, readable: bool)
    | Enter(id: nat)
    | Finish(id: nat)
    | Drop(id: nat)
    | Record(id: nat, cost: nat)

  /** Calls checked and not yet recorded, dropped or lost. */
  function Pending(w: World): set<nat> {
    set id | id in w.calls.Keys && w.calls[id].gated
  }

  function Flying(w: World, process: nat): set<nat> {
    set id | id in w.calls.Keys && w.calls[id].process == process && w.calls[id].phase == InFlight
  }

  /**
   `Drop` is a call that ends without a row: given up while waiting, failed at
   the provider, or finished with its row lost. `dearest` bounds what one gated
   call can cost.
   */
  predicate Enabled(cfg: Config, dearest: nat, w: World, s: Step) {
    match s
    case Tick(to) => to >= w.now
    case Admit(id, _, gated, readable) => id !in w.calls && (gated ==> Admits(cfg, readable, Today(w)))
    case Enter(id) =>
      id in w.calls && w.calls[id].phase == Waiting && |Flying(w, w.calls[id].process)| < cfg.cap
    case Finish(id) => id in w.calls && w.calls[id].phase == InFlight
    case Drop(id) => id in w.calls
    case Record(id, cost) =>
      id in w.calls && w.calls[id].phase == Returned && (w.calls[id].gated ==> cost <= dearest)
  }

  function Apply(w: World, s: Step): World {
    match s
    case Tick(to) => w.(now := to)
    case Admit(id, process, gated, _) => w.(calls := w.calls[id := Call(process, gated, Waiting)])
    case Enter(id) => if id in w.calls then w.(calls := w.calls[id := w.calls[id].(phase := InFlight)]) else w
    case Finish(id) => if id in w.calls then w.(calls := w.calls[id := w.calls[id].(phase := Returned)]) else w
    case Drop(id) => w.(calls := Without(w.calls, id))
    case Record(id, cost) =>
      if id in w.calls
      then w.(rows := w.rows + [Row(w.now, cost, w.calls[id].gated)], calls := Without(w.calls, id)) else w
  }

  /** `ws[i]` is the world before step `i`. */
  predicate Run(cfg: Config, dearest: nat, ws: seq<World>, steps: seq<Step>) {
    && |ws| == |steps| + 1 && ws[0].rows == [] && ws[0].calls == map[]
    && forall i | 0 <= i < |steps| :: Enabled(cfg, dearest, ws[i], steps[i]) && ws[i + 1] == Apply(ws[i], steps[i])
  }

  // Sums

  lemma {:induction false} GatedIsPart(rows: seq<Row>, since: nat)
    ensures SpendSince(rows, since, true) <= SpendSince(rows, since, false)
  {
    if rows != [] {
      GatedIsPart(rows[..|rows| - 1], since);
    }
  }

  predicate AllBefore(rows: seq<Row>, now: nat) {
    forall r | r in rows :: r.at <= now
  }

  /** Nothing recorded so far counts towards a day that begins later. */
  lemma {:induction false} NewDayStartsEmpty(rows: seq<Row>, now: nat, since: nat, gatedOnly: bool)
    requires AllBefore(rows, now) && now < since
    ensures SpendSince(rows, since, gatedOnly) == 0
  {
    if rows != [] {
      assert rows[|rows| - 1] in rows;
      NewDayStartsEmpty(rows[..|rows| - 1], now, since, gatedOnly);
    }
  }

  lemma DayStartIsMidnight(now: nat, later: nat)
    requires now <= later
    ensures DayStart(now) <= now < DayStart(now) + 24 * 60 * 60 && DayStart(now) % (24 * 60 * 60) == 0
    ensures DayStart(later) == DayStart(now) || DayStart(later) > now
  {
    if DayStart(later) <= now {
      assert later / DAY >= now / DAY;
      assert DayStart(now) == DAY * (now / DAY) && DayStart(later) == DAY * (later / DAY);
      assert later / DAY <= now / DAY;
    }
  }

  lemma OneMoreRow(w: World, id: nat, cost: nat)
    requires id in w.calls
    ensures Today(Apply(w, Record(id, cost))) == Today(w) + cost
    ensures GatedToday(Apply(w, Record(id, cost))) == GatedToday(w) + if w.calls[id].gated then cost else 0
  {
    DayStartIsMidnight(w.now, w.now);
    var rows := Apply(w, Record(id, cost)).rows;
    assert rows[..|rows| - 1] == w.rows;
  }

  lemma {:induction false} RunRowsAreBefore(cfg: Config, dearest: nat, ws: seq<World>, steps: seq<Step>, i: nat)
    requires Run(cfg, dearest, ws, steps) && i < |ws|
    ensures AllBefore(ws[i].rows, ws[i].now)
  {
    if i > 0 {
      RunRowsAreBefore(cfg, dearest, ws, steps, i - 1);
    }
  }

  // Calls in flight

  lemma FlyingStaysCapped(cfg: Config, dearest: nat, w: World, s: Step, p: nat)
    requires Enabled(cfg, dearest, w, s) && |Flying(w, p)| <= cfg.cap
    ensures |Flying(Apply(w, s), p)| <= cfg.cap
  {
    var after := Flying(Apply(w, s), p);
    if s.Enter? && w.calls[s.id].process == p {
      assert after == Flying(w, p) + {s.id};
    } else {
      assert after <= Flying(w, p);
      Subset(after, Flying(w, p));
    }
  }

  lemma {:induction false} Subset(a: set<nat>, b: set<nat>)
    requires a <= b
    ensures |a| <= |b|
  {
    assert b == a + (b - a);
  }

  /** At no moment of any run does a process have more calls at the provider than the cap. */
  lemma {:induction false} InFlightNeverExceedsTheCap(cfg: Config, dearest: nat, ws: seq<World>, steps: seq<Step>,
                                                      i: nat, p: nat)
    requires Run(cfg, dearest, ws, steps) && i < |ws|
    ensures |Flying(ws[i], p)| <= cfg.cap
  {
    if i == 0 {
      assert Flying(ws[0], p) == {};
    } else {
      InFlightNeverExceedsTheCap(cfg, dearest, ws, steps, i - 1, p);
      FlyingStaysCapped(cfg, dearest, ws[i - 1], steps[i - 1], p);
    }
  }

  // How far a day can overshoot

  /** The budget can be relied on: it is on, and an unreadable table refuses. */
  predicate Enforced(cfg: Config) {
    cfg.enabled && cfg.failClosed
  }

  /**
   With at most `most` gated calls pending at any time, what gated calls have
   recorded today and what those pending can still add stay below the limit and
   `most` calls of the dearest kind; with a limit of zero there are none.
   */
  predicate Bounded(cfg: Config, dearest: nat, most: nat, w: World) {
    if cfg.hard == 0 then GatedToday(w) == 0 && Pending(w) == {}
    else GatedToday(w) + dearest * |Pending(w)| < cfg.hard + dearest * most
  }

  lemma Scaled(d: nat, a: nat, b: nat)
    requires a <= b
    ensures d * a <= d * b
  {
  }

  lemma AdmitKeepsBounded(cfg: Config, dearest: nat, most: nat, w: World, s: Step)
    requires Enforced(cfg) && s.Admit? && Enabled(cfg, dearest, w, s) && Bounded(cfg, dearest, most, w)
    requires |Pending(Apply(w, s))| <= most
    ensures Bounded(cfg, dearest, most, Apply(w, s))
  {
    if s.gated {
      GatedIsPart(w.rows, DayStart(w.now));
      Scaled(dearest, |Pending(Apply(w, s))|, most);
    } else {
      assert Pending(Apply(w, s)) == Pending(w);
    }
  }

  lemma TickKeepsBounded(cfg: Config, dearest: nat, most: nat, w: World, to: nat)
    requires AllBefore(w.rows, w.now) && to >= w.now && Bounded(cfg, dearest, most, w) && |Pending(w)| <= most
    ensures Bounded(cfg, dearest, most, Apply(w, Tick(to)))
  {
    var after := Apply(w, Tick(to));
    DayStartIsMidnight(w.now, to);
    assert Pending(after) == Pending(w);
    if DayStart(to) > w.now {
      NewDayStartsEmpty(w.rows, w.now, DayStart(to), true);
    }
  }

  lemma EndingRemoves(w: World, s: Step)
    requires (s.Drop? || s.Record?) && s.id in w.calls
    ensures Pending(Apply(w, s)) == Pending(w) - {s.id}
  {
    assert Apply(w, s).calls == Without(w.calls, s.id);
  }

  lemma CountWithout(a: set<nat>, id: nat)
    ensures |a| == |a - {id}| + if id in a then 1 else 0
  {
    if id in a {
      assert a == (a - {id}) + {id};
    } else {
      assert a == a - {id};
    }
  }

  lemma EndingPends(w: World, s: Step)
    requires (s.Drop? || s.Record?) && s.id in w.calls
    ensures |Pending(w)| == |Pending(Apply(w, s))| + if w.calls[s.id].gated then 1 else 0
  {
    EndingRemoves(w, s);
    CountWithout(Pending(w), s.id);
  }

  lemma EndKeepsBounded(cfg: Config, dearest: nat, most: nat, w: World, s: Step)
    requires (s.Drop? || s.Record?) && Enabled(cfg, dearest, w, s) && Bounded(cfg, dearest, most, w)
    ensures Bounded(cfg, dearest, most, Apply(w, s))
  {
    EndingPends(w, s);
    var n := |Pending(Apply(w, s))|;
    assert dearest * (n + 1) == dearest * n + dearest;
    if s.Record? {
      OneMoreRow(w, s.id, s.cost);
    }
  }

  lemma StepKeepsBounded(cfg: Config, dearest: nat, most: nat, w: World, s: Step)
    requires Enforced(cfg) && AllBefore(w.rows, w.now) && Enabled(cfg, dearest, w, s)
    requires Bounded(cfg, dearest, most, w) && |Pending(w)| <= most && |Pending(Apply(w, s))| <= most
    ensures Bounded(cfg, dearest, most, Apply(w, s))
  {
    match s
    case Tick(to) => TickKeepsBounded(cfg, dearest, most, w, to);
    case Admit(_, _, _, _) => AdmitKeepsBounded(cfg, dearest, most, w, s);
    case Drop(_) => EndKeepsBounded(cfg, dearest, most, w, s);
    case Record(_, _) => EndKeepsBounded(cfg, dearest, most, w, s);
    case _ => assert Pending(Apply(w, s)) == Pending(w);
  }

  /** At every moment of the run at most `most` gated calls were between their check and their row. */
  predicate NeverMore(ws: seq<World>, most: nat) {
    forall i | 0 <= i < |ws| :: |Pending(ws[i])| <= most
  }

  /**
   The overshoot bound, for every interleaving, with or without ingest: what gated
   calls record in a day stays below the hard limit plus one dearest call for
   every call that can be pending at once.
   */
  lemma {:induction false} OvershootIsBounded(cfg: Config, dearest: nat, most: nat, ws: seq<World>, steps: seq<Step>,
                                              i: nat)
    requires Enforced(cfg) && Run(cfg, dearest, ws, steps) && NeverMore(ws, most) && i < |ws|
    ensures Bounded(cfg, dearest, most, ws[i])
  {
    if i == 0 {
      assert Pending(ws[0]) == {};
    } else {
      OvershootIsBounded(cfg, dearest, most, ws, steps, i - 1);
      RunRowsAreBefore(cfg, dearest, ws, steps, i - 1);
      assert |Pending(ws[i - 1])| <= most && |Pending(ws[i])| <= most;
      StepKeepsBounded(cfg, dearest, most, ws[i - 1], steps[i - 1]);
    }
  }

  // After the limit

  predicate SameDay(w: World, v: World) {
    DayStart(w.now) == DayStart(v.now)
  }

  lemma StepKeepsSpend(cfg: Config, dearest: nat, w: World, s: Step)
    requires Enabled(cfg, dearest, w, s) && SameDay(w, Apply(w, s))
    ensures Today(Apply(w, s)) >= Today(w)
  {
    if s.Record? {
      OneMoreRow(w, s.id, s.cost);
    }
  }

  lemma {:induction false} ClockOnlyRuns(cfg: Config, dearest: nat, ws: seq<World>, steps: seq<Step>, i: nat, j: nat)
    requires Run(cfg, dearest, ws, steps) && i <= j < |ws|
    ensures ws[i].now <= ws[j].now
    decreases j
  {
    if i < j {
      ClockOnlyRuns(cfg, dearest, ws, steps, i, j - 1);
    }
  }

  lemma {:induction false} SpendOnlyGrows(cfg: Config, dearest: nat, ws: seq<World>, steps: seq<Step>, i: nat, j: nat)
    requires Run(cfg, dearest, ws, steps) && i <= j < |ws| && SameDay(ws[i], ws[j])
    ensures Today(ws[i]) <= Today(ws[j])
    decreases j
  {
    if i < j {
      ClockOnlyRuns(cfg, dearest, ws, steps, i, j - 1);
      ClockOnlyRuns(cfg, dearest, ws, steps, j - 1, j);
      SpendOnlyGrows(cfg, dearest, ws, steps, i, j - 1);
      StepKeepsSpend(cfg, dearest, ws[j - 1], steps[j - 1]);
    }
  }

  /** Once a day's spend has reached the limit no gated call is admitted for the rest of that day. */
  lemma LimitHoldsForTheDay(cfg: Config, dearest: nat, ws: seq<World>, steps: seq<Step>, i: nat, j: nat)
    requires Enforced(cfg) && Run(cfg, dearest, ws, steps) && i <= j < |steps| && SameDay(ws[i], ws[j])
    requires Today(ws[i]) >= cfg.hard
    ensures !(steps[j].Admit? && steps[j].gated)
  {
    SpendOnlyGrows(cfg, dearest, ws, steps, i, j);
  }

  // Who is admitted

  /** What was spent since midnight, as a sum over the rows' positions. */
  function SumOf(rows: seq<Row>, counted: set<nat>, n: nat): nat
    requires n <= |rows|
  {
    if n == 0 then 0 else SumOf(rows, counted, n - 1) + if n - 1 in counted then rows[n - 1].cost else 0
  }

  function RowsOfToday(w: World): set<nat> {
    set i: nat | i < |w.rows| && w.rows[i].at / (24 * 60 * 60) >= w.now / (24 * 60 * 60) :: i
  }

  lemma SameDayOrLater(at: nat, now: nat)
    ensures at >= DayStart(now) <==> at / (24 * 60 * 60) >= now / (24 * 60 * 60)
  {
  }

  lemma {:induction false} TodayIsTheSum(w: World, n: nat)
    requires n <= |w.rows|
    ensures SpendSince(w.rows[..n], DayStart(w.now), false) == SumOf(w.rows, RowsOfToday(w), n)
  {
    if n > 0 {
      TodayIsTheSum(w, n - 1);
      assert w.rows[..n][..n - 1] == w.rows[..n - 1];
      SameDayOrLater(w.rows[n - 1].at, w.now);
    }
  }

  /**
   A gated call is let past the budget exactly when the budget is off, or what all
   calls of the day cost is read and below the limit, or it cannot be read and the
   operator chose to fail open. Ingest is never stopped.
   */
  lemma AdmittedExactly(cfg: Config, dearest: nat, w: World, id: nat, process: nat, gated: bool, readable: bool)
    ensures Enabled(cfg, dearest, w, Admit(id, process, gated, readable)) <==>
      id !in w.calls && (gated && cfg.enabled ==>
        (readable && SumOf(w.rows, RowsOfToday(w), |w.rows|) < cfg.hard) || (!readable && !cfg.failClosed))
  {
    TodayIsTheSum(w, |w.rows|);
    assert w.rows[..|w.rows|] == w.rows;
  }
}
