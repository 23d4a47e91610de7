/**
 The overshoot bound is reached, whatever the semaphore's cap: the budget check
 comes before the semaphore, so the calls that wait for a slot have all passed
 it already.
 */
module SpendTight {
  import opened Collections
  import opened Spend

  /** `n` gated calls of one process, all checked, none at the provider yet. */
  function Crowd(n: nat): map<nat, Call> {
    if n == 0 then map[] else Crowd(n - 1)[n - 1 := Call(0, true, Waiting)]
  }

  function Numbers(n: nat): (s: set<nat>)
    ensures |s| == n && forall id | id in s :: id < n
  {
    if n == 0 then {} else Numbers(n - 1) + {n - 1}
  }

  lemma {:induction false} CrowdIsNumbered(n: nat)
    ensures Crowd(n).Keys == Numbers(n)
    ensures forall id | id in Crowd(n) :: Crowd(n)[id] == Call(0, true, Waiting)
  {
    if n > 0 {
      CrowdIsNumbered(n - 1);
    }
  }

  predicate AllGated(calls: map<nat, Call>, n: nat) {
    calls.Keys == Numbers(n) && forall id | id in calls :: calls[id].gated
  }

  lemma PendingIsTheCrowd(w: World, n: nat)
    requires AllGated(w.calls, n)
    ensures |Pending(w)| == n
  {
    assert Pending(w) == Numbers(n);
  }

  /** A run that never had more than `most` pending, and where it stands now. */
  predicate Reaches(cfg: Config, dearest: nat, most: nat, ws: seq<World>, steps: seq<Step>, w: World) {
    Run(cfg, dearest, ws, steps) && NeverMore(ws, most) && ws[|ws| - 1] == w
  }

  lemma Extend(cfg: Config, dearest: nat, most: nat, ws: seq<World>, steps: seq<Step>, w: World, s: Step)
    requires Reaches(cfg, dearest, most, ws, steps, w) && Enabled(cfg, dearest, w, s)
    requires |Pending(Apply(w, s))| <= most
    ensures Reaches(cfg, dearest, most, ws + [Apply(w, s)], steps + [s], Apply(w, s))
  {
    var more, longer := ws + [Apply(w, s)], steps + [s];
    forall i | 0 <= i < |longer| ensures Enabled(cfg, dearest, more[i], longer[i]) && more[i + 1] == Apply(more[i], longer[i]) {
      if i < |steps| {
        assert more[i] == ws[i] && more[i + 1] == ws[i + 1] && longer[i] == steps[i];
      }
    }
  }

  /** One more call passes the check while the day is below the limit. */
  lemma AdmitOne(cfg: Config, dearest: nat, most: nat, ws: seq<World>, steps: seq<Step>, rows: seq<Row>, n: nat)
    returns (more: seq<World>, longer: seq<Step>)
    requires Reaches(cfg, dearest, most, ws, steps, World(0, rows, Crowd(n))) && n < most
    requires SpendSince(rows, 0, false) < cfg.hard
    ensures Reaches(cfg, dearest, most, more, longer, World(0, rows, Crowd(n + 1)))
  {
    var w, s := World(0, rows, Crowd(n)), Admit(n, 0, true, true);
    CrowdIsNumbered(n);
    CrowdIsNumbered(n + 1);
    PendingIsTheCrowd(Apply(w, s), n + 1);
    Extend(cfg, dearest, most, ws, steps, w, s);
    more, longer := ws + [Apply(w, s)], steps + [s];
  }

  lemma NobodyFlies(w: World, n: nat)
    requires w.calls == Crowd(n)
    ensures Flying(w, 0) == {}
  {
    CrowdIsNumbered(n);
  }

  function Entered(rows: seq<Row>, n: nat): World {
    Apply(World(0, rows, Crowd(n + 1)), Enter(n))
  }

  function Finished(rows: seq<Row>, n: nat): World {
    Apply(Entered(rows, n), Finish(n))
  }

  lemma EnteredIsOneStep(cfg: Config, dearest: nat, rows: seq<Row>, n: nat)
    requires cfg.cap >= 1
    ensures Enabled(cfg, dearest, World(0, rows, Crowd(n + 1)), Enter(n))
    ensures Entered(rows, n) == World(0, rows, Crowd(n)[n := Call(0, true, InFlight)])
    ensures |Pending(Entered(rows, n))| == n + 1
  {
    NobodyFlies(World(0, rows, Crowd(n + 1)), n + 1);
    CrowdIsNumbered(n);
    CrowdIsNumbered(n + 1);
    PendingIsTheCrowd(Entered(rows, n), n + 1);
  }

  lemma FinishedIsOneStep(cfg: Config, dearest: nat, rows: seq<Row>, n: nat)
    requires cfg.cap >= 1
    ensures Enabled(cfg, dearest, Entered(rows, n), Finish(n))
    ensures Finished(rows, n) == World(0, rows, Crowd(n)[n := Call(0, true, Returned)])
    ensures |Pending(Finished(rows, n))| == n + 1
  {
    EnteredIsOneStep(cfg, dearest, rows, n);
    CrowdIsNumbered(n);
    CrowdIsNumbered(n + 1);
    PendingIsTheCrowd(Finished(rows, n), n + 1);
  }

  lemma RecordedIsOneStep(cfg: Config, dearest: nat, rows: seq<Row>, n: nat, cost: nat)
    requires cfg.cap >= 1 && cost <= dearest
    ensures Enabled(cfg, dearest, Finished(rows, n), Record(n, cost))
    ensures Apply(Finished(rows, n), Record(n, cost)) == World(0, rows + [Row(0, cost, true)], Crowd(n))
    ensures |Pending(World(0, rows + [Row(0, cost, true)], Crowd(n)))| == n
  {
    FinishedIsOneStep(cfg, dearest, rows, n);
    CrowdIsNumbered(n);
    assert Without(Crowd(n)[n := Call(0, true, Returned)], n) == Crowd(n);
    PendingIsTheCrowd(World(0, rows + [Row(0, cost, true)], Crowd(n)), n);
  }

  /** One waiting call takes the slot, returns and is recorded; the slot is free again. */
  lemma RecordOne(cfg: Config, dearest: nat, most: nat, ws: seq<World>, steps: seq<Step>, rows: seq<Row>, n: nat,
                  cost: nat)
    returns (more: seq<World>, longer: seq<Step>)
    requires Reaches(cfg, dearest, most, ws, steps, World(0, rows, Crowd(n + 1))) && n < most
    requires cfg.cap >= 1 && cost <= dearest
    ensures Reaches(cfg, dearest, most, more, longer, World(0, rows + [Row(0, cost, true)], Crowd(n)))
  {
    more, longer := ws, steps;
    EnteredIsOneStep(cfg, dearest, rows, n);
    Extend(cfg, dearest, most, more, longer, World(0, rows, Crowd(n + 1)), Enter(n));
    more, longer := more + [Entered(rows, n)], longer + [Enter(n)];
    FinishedIsOneStep(cfg, dearest, rows, n);
    Extend(cfg, dearest, most, more, longer, Entered(rows, n), Finish(n));
    more, longer := more + [Finished(rows, n)], longer + [Finish(n)];
    RecordedIsOneStep(cfg, dearest, rows, n, cost);
    Extend(cfg, dearest, most, more, longer, Finished(rows, n), Record(n, cost));
    more, longer := more + [Apply(Finished(rows, n), Record(n, cost))], longer + [Record(n, cost)];
  }

  lemma OneRowMore(rows: seq<Row>, cost: nat, gatedOnly: bool)
    ensures SpendSince(rows + [Row(0, cost, true)], 0, gatedOnly) == SpendSince(rows, 0, gatedOnly) + cost
  {
    assert (rows + [Row(0, cost, true)])[..|rows|] == rows;
  }

  predicate Spent(rows: seq<Row>, amount: nat) {
    SpendSince(rows, 0, false) == amount && SpendSince(rows, 0, true) == amount
  }

  /** Calls of one coin each, one after the other, up to any amount below the limit. */
  lemma {:induction false} SpendCoinByCoin(cfg: Config, dearest: nat, most: nat, amount: nat)
    returns (ws: seq<World>, steps: seq<Step>, rows: seq<Row>)
    requires cfg.cap >= 1 && dearest >= 1 && most >= 1 && amount < cfg.hard
    ensures Reaches(cfg, dearest, most, ws, steps, World(0, rows, Crowd(0))) && Spent(rows, amount)
  {
    if amount == 0 {
      ws, steps, rows := [World(0, [], map[])], [], [];
      assert Crowd(0) == map[];
      PendingIsTheCrowd(ws[0], 0);
    } else {
      ws, steps, rows := SpendCoinByCoin(cfg, dearest, most, amount - 1);
      ws, steps := AdmitOne(cfg, dearest, most, ws, steps, rows, 0);
      ws, steps := RecordOne(cfg, dearest, most, ws, steps, rows, 0, 1);
      OneRowMore(rows, 1, false);
      OneRowMore(rows, 1, true);
      rows := rows + [Row(0, 1, true)];
    }
  }

  lemma {:induction false} AdmitAll(cfg: Config, dearest: nat, most: nat, ws: seq<World>, steps: seq<Step>,
                                    rows: seq<Row>, n: nat)
    returns (more: seq<World>, longer: seq<Step>)
    requires Reaches(cfg, dearest, most, ws, steps, World(0, rows, Crowd(0))) && n <= most
    requires SpendSince(rows, 0, false) < cfg.hard
    ensures Reaches(cfg, dearest, most, more, longer, World(0, rows, Crowd(n)))
  {
    if n == 0 {
      more, longer := ws, steps;
    } else {
      more, longer := AdmitAll(cfg, dearest, most, ws, steps, rows, n - 1);
      more, longer := AdmitOne(cfg, dearest, most, more, longer, rows, n - 1);
    }
  }

  lemma OneCallLess(dearest: nat, n: nat)
    requires n > 0
    ensures dearest + dearest * (n - 1) == dearest * n
  {
  }

  lemma {:induction false} RecordAll(cfg: Config, dearest: nat, most: nat, ws: seq<World>, steps: seq<Step>,
                                     rows: seq<Row>, n: nat, amount: nat)
    returns (more: seq<World>, longer: seq<Step>, after: seq<Row>)
    requires Reaches(cfg, dearest, most, ws, steps, World(0, rows, Crowd(n))) && n <= most && cfg.cap >= 1
    requires Spent(rows, amount)
    ensures Reaches(cfg, dearest, most, more, longer, World(0, after, Crowd(0))) && Spent(after, amount + dearest * n)
    decreases n
  {
    if n == 0 {
      more, longer, after := ws, steps, rows;
    } else {
      var next := rows + [Row(0, dearest, true)];
      more, longer := RecordOne(cfg, dearest, most, ws, steps, rows, n - 1, dearest);
      more, longer, after := RecordAll(cfg, dearest, most, more, longer, next, n - 1, amount + dearest);
      OneCallLess(dearest, n);
    }
  }

  /**
   For every cap, even one, and every number of pending calls some run records
   the most the bound allows: one coin below the limit, plus a dearest call each.
   So it is the calls past the check, not the cap, that bound the overshoot.
   */
  lemma OvershootIsReached(cfg: Config, dearest: nat, most: nat)
    returns (ws: seq<World>, steps: seq<Step>)
    requires cfg.hard >= 1 && cfg.cap >= 1 && dearest >= 1 && most >= 1
    ensures Run(cfg, dearest, ws, steps) && NeverMore(ws, most)
    ensures GatedToday(ws[|ws| - 1]) == cfg.hard - 1 + dearest * most
  {
    var rows;
    ws, steps, rows := SpendCoinByCoin(cfg, dearest, most, cfg.hard - 1);
    ws, steps := AdmitAll(cfg, dearest, most, ws, steps, rows, most);
    var after;
    ws, steps, after := RecordAll(cfg, dearest, most, ws, steps, rows, most, cfg.hard - 1);
  }
}
