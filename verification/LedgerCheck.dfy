/** `check`: the three rules that tie rows to issues, and the report of every breach. */
module LedgerCheck {
  import opened Wrappers
  import opened LedgerParse

  datatype Item = Item(isOpen: bool, isPr: bool)

  datatype Rule = R1 | R2 | R3
  datatype Reason = NotFound | PullRequest | ClosedByThisOne | ClosedOnGithub | OpenOnGithub | NoOpenRow

  /** `line` is zero for a rule that is about no row. */
  datatype Violation = Violation(rule: Rule, number: nat, line: nat, reason: Reason)

  datatype Report = Report(violations: seq<Violation>, openRows: nat, closedRows: nat, openIssues: nat)

  // The rules

  predicate WantsClosed(r: Row) {
    r.closedSection || r.struck
  }

  /** An issue that is open now and stays open. */
  predicate StaysOpen(items: map<nat, Item>, willClose: set<nat>, n: nat) {
    n in items && !items[n].isPr && items[n].isOpen && n !in willClose
  }

  predicate IsClosed(items: map<nat, Item>, willClose: set<nat>, n: nat) {
    n in items && !items[n].isPr && (!items[n].isOpen || n in willClose)
  }

  predicate Covers(r: Row, n: nat) {
    !WantsClosed(r) && n in r.numbers
  }

  predicate Covered(rows: seq<Row>, n: nat) {
    exists i | 0 <= i < |rows| :: Covers(rows[i], n)
  }

  /** R1: every open issue has an un-struck row in an open table. */
  predicate EveryOpenIssueHasARow(rows: seq<Row>, items: map<nat, Item>, willClose: set<nat>) {
    forall n | n in items && StaysOpen(items, willClose, n) :: Covered(rows, n)
  }

  /** R2: an un-struck row in an open table names only open issues. */
  predicate OpenRowsNameOpenIssues(rows: seq<Row>, items: map<nat, Item>, willClose: set<nat>) {
    forall r | r in rows && !WantsClosed(r) :: forall n | n in r.numbers :: StaysOpen(items, willClose, n)
  }

  /** R3: a struck row, or one in a closed section, names only closed issues. */
  predicate ClosedRowsNameClosedIssues(rows: seq<Row>, items: map<nat, Item>, willClose: set<nat>) {
    forall r | r in rows && WantsClosed(r) :: forall n | n in r.numbers :: IsClosed(items, willClose, n)
  }

  // What one number of one row breaks

  function Fault(r: Row, n: nat, items: map<nat, Item>, willClose: set<nat>): (f: Option<Reason>)
    ensures f.None? <==> if WantsClosed(r) then IsClosed(items, willClose, n) else StaysOpen(items, willClose, n)
  {
    if n !in items then Some(NotFound)
    else if items[n].isPr then Some(PullRequest)
    else if !WantsClosed(r) && n in willClose && items[n].isOpen then Some(ClosedByThisOne)
    else if !WantsClosed(r) && !items[n].isOpen then Some(ClosedOnGithub)
    else if WantsClosed(r) && items[n].isOpen && n !in willClose then Some(OpenOnGithub)
    else None
  }

  /** A reported reason is true of the issue and of the row, and only one is reported. */
  lemma ReasonsAreTrue(r: Row, n: nat, items: map<nat, Item>, willClose: set<nat>)
    ensures var f, upright := Fault(r, n, items, willClose), !r.struck && !r.closedSection;
      && (f == Some(NotFound) <==> n !in items)
      && (f == Some(PullRequest) <==> n in items && items[n].isPr)
      && (f == Some(ClosedByThisOne) <==> upright && n in items && items[n] == Item(true, false) && n in willClose)
      && (f == Some(ClosedOnGithub) <==> upright && n in items && items[n] == Item(false, false))
      && (f == Some(OpenOnGithub) <==> !upright && n in items && items[n] == Item(true, false) && n !in willClose)
  {
  }

  function RuleFor(r: Row): Rule {
    if WantsClosed(r) then R3 else R2
  }

  /** The violations of the first `k` numbers of a row, once for every time a number is written. */
  function FaultsOf(r: Row, k: nat, items: map<nat, Item>, willClose: set<nat>): seq<Violation>
    requires k <= |r.numbers|
  {
    if k == 0 then []
    else
      FaultsOf(r, k - 1, items, willClose) +
      var f := Fault(r, r.numbers[k - 1], items, willClose);
      if f.Some? then [Violation(RuleFor(r), r.numbers[k - 1], r.line, f.value)] else []
  }

  function FaultsBefore(rows: seq<Row>, n: nat, items: map<nat, Item>, willClose: set<nat>): seq<Violation>
    requires n <= |rows|
  {
    if n == 0 then []
    else FaultsBefore(rows, n - 1, items, willClose) + FaultsOf(rows[n - 1], |rows[n - 1].numbers|, items, willClose)
  }

  function Uncovered(rows: seq<Row>, numbers: seq<nat>): seq<Violation> {
    if numbers == [] then []
    else
      Uncovered(rows, numbers[..|numbers| - 1]) +
      var n := numbers[|numbers| - 1];
      if Covered(rows, n) then [] else [Violation(R1, n, 0, NoOpenRow)]
  }

  function InOpenTables(rows: seq<Row>): nat {
    if rows == [] then 0
    else InOpenTables(rows[..|rows| - 1]) + if rows[|rows| - 1].closedSection then 0 else 1
  }

  /** The rows outside closed sections, by position. */
  function OpenTableRows(rows: seq<Row>): set<nat> {
    set i: nat | i < |rows| && !rows[i].closedSection :: i
  }

  lemma OpenRowsOfOneMore(rows: seq<Row>)
    requires rows != []
    ensures var n := |rows| - 1;
      OpenTableRows(rows) == OpenTableRows(rows[..n]) + if rows[n].closedSection then {} else {n}
  {
  }

  lemma {:induction false} OpenRowsAreCounted(rows: seq<Row>)
    ensures InOpenTables(rows) == |OpenTableRows(rows)|
    decreases |rows|
  {
    if rows != [] {
      var n := |rows| - 1;
      OpenRowsAreCounted(rows[..n]);
      OpenRowsOfOneMore(rows);
    }
  }

  // The report

  predicate Sorted(s: seq<nat>) {
    forall i, j | 0 <= i < j < |s| :: s[i] < s[j]
  }

  /** `s` lists the open issues, in order. */
  ghost predicate ListsOpenIssues(s: seq<nat>, items: map<nat, Item>, willClose: set<nat>) {
    Sorted(s) && forall n: nat :: n in s <==> StaysOpen(items, willClose, n)
  }

  method Smallest(s: set<nat>) returns (m: nat)
    requires s != {}
    ensures m in s && forall n | n in s :: m <= n
  {
    m :| m in s;
    var rest := s - {m};
    while rest != {}
      invariant m in s && rest <= s && forall n | n in s && n !in rest :: m <= n
      decreases rest
    {
      var n :| n in rest;
      if n < m {
        m := n;
      }
      rest := rest - {n};
    }
  }

  method OpenIssues(items: map<nat, Item>, willClose: set<nat>) returns (s: seq<nat>)
    ensures ListsOpenIssues(s, items, willClose)
  {
    s := [];
    var rest := set n | n in items.Keys && StaysOpen(items, willClose, n);
    while rest != {}
      invariant Sorted(s) && forall i, n | 0 <= i < |s| && n in rest :: s[i] < n
      invariant forall n: nat :: n in s || n in rest <==> StaysOpen(items, willClose, n)
      decreases rest
    {
      var n := Smallest(rest);
      s := s + [n];
      rest := rest - {n};
    }
  }

  /** The part of the report that is about one row, and the issues it covers. */
  method CheckRow(r: Row, items: map<nat, Item>, willClose: set<nat>, covered: set<nat>)
    returns (found: seq<Violation>, nowCovered: set<nat>)
    ensures found == FaultsOf(r, |r.numbers|, items, willClose)
    ensures forall n: nat :: n in nowCovered <==>
      n in covered || (Covers(r, n) && StaysOpen(items, willClose, n))
  {
    found, nowCovered := [], covered;
    var rule := if r.closedSection || r.struck then R3 else R2;
    var k := 0;
    while k < |r.numbers|
      invariant k <= |r.numbers| && found == FaultsOf(r, k, items, willClose)
      invariant forall n: nat :: n in nowCovered <==>
        n in covered || (!WantsClosed(r) && n in r.numbers[..k] && StaysOpen(items, willClose, n))
    {
      var number := r.numbers[k];
      var f := Fault(r, number, items, willClose);
      if f.None? {
        if rule == R2 {
          nowCovered := nowCovered + {number};
        }
      } else {
        found := found + [Violation(rule, number, r.line, f.value)];
      }
      k := k + 1;
    }
    assert r.numbers[..k] == r.numbers;
  }

  /**
   The whole report: one violation for every number a row should not have, in
   the rows' order, then one for every open issue without a row, in order.
   */
  method Check(rows: seq<Row>, items: map<nat, Item>, willClose: set<nat>)
    returns (report: Report, ghost listed: seq<nat>)
    ensures ListsOpenIssues(listed, items, willClose) && report.openIssues == |listed|
    ensures report.violations == FaultsBefore(rows, |rows|, items, willClose) + Uncovered(rows, listed)
    ensures report.openRows == |OpenTableRows(rows)| && report.openRows + report.closedRows == |rows|
  {
    var violations, covered, openRows, closedRows := [], {}, 0, 0;
    var i := 0;
    while i < |rows|
      invariant i <= |rows| && violations == FaultsBefore(rows, i, items, willClose)
      invariant openRows == InOpenTables(rows[..i]) && openRows + closedRows == i
      invariant forall n: nat :: n in covered <==> StaysOpen(items, willClose, n) && Covered(rows[..i], n)
    {
      if rows[i].closedSection {
        closedRows := closedRows + 1;
      } else {
        openRows := openRows + 1;
      }
      var found;
      ghost var before := covered;
      found, covered := CheckRow(rows[i], items, willClose, covered);
      violations := violations + found;
      forall n: nat ensures Covered(rows[..i + 1], n) <==> Covered(rows[..i], n) || Covers(rows[i], n) {
        OneMoreRow(rows, i, n);
      }
      assert rows[..i + 1][..i] == rows[..i];
      i := i + 1;
    }
    assert rows[..i] == rows;
    var openIssues := OpenIssues(items, willClose);
    listed := openIssues;
    var j := 0;
    while j < |openIssues|
      invariant j <= |openIssues|
      invariant violations == FaultsBefore(rows, |rows|, items, willClose) + Uncovered(rows, openIssues[..j])
    {
      var number := openIssues[j];
      assert number in openIssues;
      if number !in covered {
        violations := violations + [Violation(R1, number, 0, NoOpenRow)];
      }
      assert openIssues[..j + 1][..j] == openIssues[..j];
      j := j + 1;
    }
    assert openIssues[..j] == openIssues;
    OpenRowsAreCounted(rows);
    report := Report(violations, openRows, closedRows, |openIssues|);
  }

  lemma OneMoreRow(rows: seq<Row>, i: nat, n: nat)
    requires i < |rows|
    ensures Covered(rows[..i + 1], n) <==> Covered(rows[..i], n) || Covers(rows[i], n)
  {
    assert forall j | 0 <= j < i :: rows[..i + 1][j] == rows[..i][j];
    assert rows[..i + 1][i] == rows[i];
  }

  // What the report means

  lemma {:induction false} NoFaultInRow(r: Row, k: nat, items: map<nat, Item>, willClose: set<nat>)
    requires k <= |r.numbers|
    ensures FaultsOf(r, k, items, willClose) == [] <==>
      forall j | 0 <= j < k :: Fault(r, r.numbers[j], items, willClose).None?
  {
    if k > 0 {
      NoFaultInRow(r, k - 1, items, willClose);
    }
  }

  predicate FaultlessRow(r: Row, items: map<nat, Item>, willClose: set<nat>) {
    forall n | n in r.numbers :: Fault(r, n, items, willClose).None?
  }

  lemma {:induction false} NoFaultInRows(rows: seq<Row>, n: nat, items: map<nat, Item>, willClose: set<nat>)
    requires n <= |rows|
    ensures FaultsBefore(rows, n, items, willClose) == [] <==>
      forall i | 0 <= i < n :: FaultlessRow(rows[i], items, willClose)
  {
    if n > 0 {
      NoFaultInRows(rows, n - 1, items, willClose);
      NoFaultInRow(rows[n - 1], |rows[n - 1].numbers|, items, willClose);
    }
  }

  lemma {:induction false} NothingUncovered(rows: seq<Row>, numbers: seq<nat>)
    ensures Uncovered(rows, numbers) == [] <==> forall n | n in numbers :: Covered(rows, n)
  {
    if numbers != [] {
      NothingUncovered(rows, numbers[..|numbers| - 1]);
      assert numbers == numbers[..|numbers| - 1] + [numbers[|numbers| - 1]];
    }
  }

  predicate AllRulesHold(rows: seq<Row>, items: map<nat, Item>, willClose: set<nat>) {
    && EveryOpenIssueHasARow(rows, items, willClose)
    && OpenRowsNameOpenIssues(rows, items, willClose)
    && ClosedRowsNameClosedIssues(rows, items, willClose)
  }

  /** The report is empty if and only if all three rules hold. */
  lemma EmptyReportIsAgreement(rows: seq<Row>, items: map<nat, Item>, willClose: set<nat>, listed: seq<nat>)
    requires ListsOpenIssues(listed, items, willClose)
    ensures FaultsBefore(rows, |rows|, items, willClose) + Uncovered(rows, listed) == []
       <==> AllRulesHold(rows, items, willClose)
  {
    NoFaultInRows(rows, |rows|, items, willClose);
    NothingUncovered(rows, listed);
    assert (forall i | 0 <= i < |rows| :: FaultlessRow(rows[i], items, willClose))
      <==> (forall r | r in rows :: FaultlessRow(r, items, willClose));
  }

  /** The places where R2 or R3 fails: a row and a position in its list of numbers. */
  function Offences(rows: seq<Row>, items: map<nat, Item>, willClose: set<nat>): set<(nat, nat)> {
    set i, k | 0 <= i < |rows| && 0 <= k < |rows[i].numbers|
            && Fault(rows[i], rows[i].numbers[k], items, willClose).Some? :: (i, k)
  }

  /** The issues R1 misses. */
  function Missing(rows: seq<Row>, items: map<nat, Item>, willClose: set<nat>): set<nat> {
    set n | n in items.Keys && StaysOpen(items, willClose, n) && !Covered(rows, n)
  }

  function OffencesOf(rows: seq<Row>, i: nat, k: nat, items: map<nat, Item>, willClose: set<nat>): set<(nat, nat)>
    requires i < |rows| && k <= |rows[i].numbers|
  {
    if k == 0 then {}
    else
      OffencesOf(rows, i, k - 1, items, willClose) +
      if Fault(rows[i], rows[i].numbers[k - 1], items, willClose).Some? then {(i, k - 1)} else {}
  }

  function OffencesBefore(rows: seq<Row>, n: nat, items: map<nat, Item>, willClose: set<nat>): set<(nat, nat)>
    requires n <= |rows|
  {
    if n == 0 then {}
    else OffencesBefore(rows, n - 1, items, willClose) + OffencesOf(rows, n - 1, |rows[n - 1].numbers|, items, willClose)
  }

  lemma {:induction false} OffencesOfRow(rows: seq<Row>, i: nat, k: nat, items: map<nat, Item>, willClose: set<nat>,
                                         at: (nat, nat))
    requires i < |rows| && k <= |rows[i].numbers|
    ensures at in OffencesOf(rows, i, k, items, willClose) <==>
      at.0 == i && at.1 < k && Fault(rows[i], rows[i].numbers[at.1], items, willClose).Some?
  {
    if k > 0 {
      OffencesOfRow(rows, i, k - 1, items, willClose, at);
    }
  }

  lemma {:induction false} OffencesOfRows(rows: seq<Row>, n: nat, items: map<nat, Item>, willClose: set<nat>, at: (nat,
                                          nat))
    requires n <= |rows|
    ensures at in OffencesBefore(rows, n, items, willClose) <==>
      at.0 < n && at.1 < |rows[at.0].numbers| && Fault(rows[at.0], rows[at.0].numbers[at.1], items, willClose).Some?
  {
    if n > 0 {
      OffencesOfRows(rows, n - 1, items, willClose, at);
      OffencesOfRow(rows, n - 1, |rows[n - 1].numbers|, items, willClose, at);
    }
  }

  lemma {:induction false} RowFaultsAreItsOffences(rows: seq<Row>, i: nat, k: nat, items: map<nat, Item>,
                                                   willClose: set<nat>)
    requires i < |rows| && k <= |rows[i].numbers|
    ensures |FaultsOf(rows[i], k, items, willClose)| == |OffencesOf(rows, i, k, items, willClose)|
  {
    if k > 0 {
      RowFaultsAreItsOffences(rows, i, k - 1, items, willClose);
      OffencesOfRow(rows, i, k - 1, items, willClose, (i, k - 1));
    }
  }

  lemma DisjointSum<T>(a: set<T>, b: set<T>)
    requires a !! b
    ensures |a + b| == |a| + |b|
  {
  }

  lemma {:induction false} FaultsAreTheOffences(rows: seq<Row>, n: nat, items: map<nat, Item>, willClose: set<nat>)
    requires n <= |rows|
    ensures |FaultsBefore(rows, n, items, willClose)| == |OffencesBefore(rows, n, items, willClose)|
  {
    if n > 0 {
      var before, row := OffencesBefore(rows, n - 1, items, willClose), OffencesOf(rows, n - 1, |rows[n - 1].numbers|, items, willClose);
      FaultsAreTheOffences(rows, n - 1, items, willClose);
      RowFaultsAreItsOffences(rows, n - 1, |rows[n - 1].numbers|, items, willClose);
      forall at | at in before ensures at !in row {
        OffencesOfRows(rows, n - 1, items, willClose, at);
        OffencesOfRow(rows, n - 1, |rows[n - 1].numbers|, items, willClose, at);
      }
      DisjointSum(before, row);
    }
  }

  lemma OffencesAreAllRows(rows: seq<Row>, items: map<nat, Item>, willClose: set<nat>)
    ensures Offences(rows, items, willClose) == OffencesBefore(rows, |rows|, items, willClose)
  {
    forall at: (nat, nat)
      ensures at in Offences(rows, items, willClose) <==> at in OffencesBefore(rows, |rows|, items, willClose)
    {
      OffencesOfRows(rows, |rows|, items, willClose, at);
    }
  }

  function UncoveredIn(rows: seq<Row>, numbers: seq<nat>): set<nat> {
    if numbers == [] then {}
    else
      UncoveredIn(rows, numbers[..|numbers| - 1]) +
      if Covered(rows, numbers[|numbers| - 1]) then {} else {numbers[|numbers| - 1]}
  }

  lemma {:induction false} UncoveredInAre(rows: seq<Row>, numbers: seq<nat>, n: nat)
    ensures n in UncoveredIn(rows, numbers) <==> n in numbers && !Covered(rows, n)
  {
    if numbers != [] {
      UncoveredInAre(rows, numbers[..|numbers| - 1], n);
      assert numbers == numbers[..|numbers| - 1] + [numbers[|numbers| - 1]];
    }
  }

  lemma {:induction false} UncoveredAreCounted(rows: seq<Row>, numbers: seq<nat>)
    requires Sorted(numbers)
    ensures |Uncovered(rows, numbers)| == |UncoveredIn(rows, numbers)|
  {
    if numbers != [] {
      var m := |numbers| - 1;
      UncoveredAreCounted(rows, numbers[..m]);
      UncoveredInAre(rows, numbers[..m], numbers[m]);
      assert numbers[m] !in numbers[..m];
    }
  }

  lemma UncoveredAreTheMissing(rows: seq<Row>, items: map<nat, Item>, willClose: set<nat>, listed: seq<nat>)
    requires ListsOpenIssues(listed, items, willClose)
    ensures |Uncovered(rows, listed)| == |Missing(rows, items, willClose)|
  {
    UncoveredAreCounted(rows, listed);
    forall n: nat ensures n in UncoveredIn(rows, listed) <==> n in Missing(rows, items, willClose) {
      UncoveredInAre(rows, listed, n);
    }
    assert UncoveredIn(rows, listed) == Missing(rows, items, willClose);
  }

  /** The number of violations is the number of offending places under R2 and R3 and of issues missing under R1. */
  lemma ViolationsAreCounted(rows: seq<Row>, items: map<nat, Item>, willClose: set<nat>, listed: seq<nat>)
    requires ListsOpenIssues(listed, items, willClose)
    ensures |FaultsBefore(rows, |rows|, items, willClose) + Uncovered(rows, listed)|
         == |Offences(rows, items, willClose)| + |Missing(rows, items, willClose)|
  {
    FaultsAreTheOffences(rows, |rows|, items, willClose);
    OffencesAreAllRows(rows, items, willClose);
    UncoveredAreTheMissing(rows, items, willClose, listed);
  }

  // Issues the pull request will close

  /** GitHub as it will be once those issues are closed. */
  function AfterClosing(items: map<nat, Item>, willClose: set<nat>): map<nat, Item> {
    map n | n in items :: if n in willClose then items[n].(isOpen := false) else items[n]
  }

  /** Naming the issues a pull request will close gives the verdict the ledger will have after they are closed. */
  lemma WillCloseIsTheLaterVerdict(rows: seq<Row>, items: map<nat, Item>, willClose: set<nat>)
    ensures AllRulesHold(rows, items, willClose) <==> AllRulesHold(rows, AfterClosing(items, willClose), {})
    ensures Offences(rows, items, willClose) == Offences(rows, AfterClosing(items, willClose), {})
    ensures Missing(rows, items, willClose) == Missing(rows, AfterClosing(items, willClose), {})
  {
    forall n: nat
      ensures StaysOpen(items, willClose, n) <==> StaysOpen(AfterClosing(items, willClose), {}, n)
      ensures IsClosed(items, willClose, n) <==> IsClosed(AfterClosing(items, willClose), {}, n)
    {
    }
  }

  // What one violation says

  /** A row breaks R2, or R3 when it is struck or under a closed heading, by one of its numbers. */
  predicate RowBreaks(r: Row, items: map<nat, Item>, willClose: set<nat>, v: Violation) {
    && v.number in r.numbers && v.line == r.line && v.rule == (if r.struck || r.closedSection then R3 else R2)
    && Fault(r, v.number, items, willClose) == Some(v.reason)
  }

  lemma {:induction false} FaultsOfARow(r: Row, k: nat, items: map<nat, Item>, willClose: set<nat>, v: Violation)
    requires k <= |r.numbers|
    ensures v in FaultsOf(r, k, items, willClose) <==>
      && v.number in r.numbers[..k] && v.line == r.line && v.rule == (if r.struck || r.closedSection then R3 else R2)
      && Fault(r, v.number, items, willClose) == Some(v.reason)
  {
    if k > 0 {
      FaultsOfARow(r, k - 1, items, willClose, v);
      assert r.numbers[..k] == r.numbers[..k - 1] + [r.numbers[k - 1]];
    }
  }

  lemma {:induction false} FaultsOfTheRows(rows: seq<Row>, n: nat, items: map<nat, Item>, willClose: set<nat>, v: Violation)
    requires n <= |rows|
    ensures v in FaultsBefore(rows, n, items, willClose) <==> exists i | 0 <= i < n :: RowBreaks(rows[i], items, willClose, v)
  {
    if n > 0 {
      var r := rows[n - 1];
      FaultsOfTheRows(rows, n - 1, items, willClose, v);
      FaultsOfARow(r, |r.numbers|, items, willClose, v);
      assert r.numbers[..|r.numbers|] == r.numbers;
    }
  }

  lemma {:induction false} UncoveredOnes(rows: seq<Row>, numbers: seq<nat>, v: Violation)
    ensures v in Uncovered(rows, numbers) <==>
      v == Violation(R1, v.number, 0, NoOpenRow) && v.number in numbers && !Covered(rows, v.number)
  {
    if numbers != [] {
      var n := |numbers| - 1;
      UncoveredOnes(rows, numbers[..n], v);
      assert numbers == numbers[..n] + [numbers[n]];
    }
  }

  /**
   A violation is reported exactly when a row breaks R2 or R3 by that number for
   that reason, or under R1 when the issue stays open and no open row names it.
   */
  lemma ReportedExactly(rows: seq<Row>, items: map<nat, Item>, willClose: set<nat>, listed: seq<nat>, v: Violation)
    requires ListsOpenIssues(listed, items, willClose)
    ensures v in FaultsBefore(rows, |rows|, items, willClose) + Uncovered(rows, listed) <==>
      || (exists i | 0 <= i < |rows| :: RowBreaks(rows[i], items, willClose, v))
      || (v == Violation(R1, v.number, 0, NoOpenRow) && StaysOpen(items, willClose, v.number)
          && !HasOpenRow(rows, v.number))
  {
    FaultsOfTheRows(rows, |rows|, items, willClose, v);
    UncoveredOnes(rows, listed, v);
    if i :| 0 <= i < |rows| && Covers(rows[i], v.number) { assert rows[i] in rows; }
  }

  // Reading GitHub, and the exit status

  /** One line of what `gh` printed. */
  datatype GhLine = Blank | Unreadable | Issue(number: nat, item: Item)

  datatype ReadError = NoAnswer | BadLine | Twice(number: nat) | NoIssues

  /** Every line is blank or an issue, no issue comes twice, and there is one. */
  predicate Readable(lines: seq<GhLine>) {
    && (forall i | 0 <= i < |lines| :: !lines[i].Unreadable?)
    && (forall i, j | 0 <= i < j < |lines| && lines[i].Issue? && lines[j].Issue? :: lines[i].number != lines[j].number)
    && exists i | 0 <= i < |lines| :: lines[i].Issue?
  }

  function ItemsOf(lines: seq<GhLine>): map<nat, Item> {
    if lines == [] then map[]
    else
      var before, last := ItemsOf(lines[..|lines| - 1]), lines[|lines| - 1];
      if last.Issue? then before[last.number := last.item] else before
  }

  /** An issue is known if and only if a line names it. */
  lemma {:induction false} ItemsAreTheIssues(lines: seq<GhLine>, n: nat)
    ensures n in ItemsOf(lines) <==> exists i | 0 <= i < |lines| :: lines[i].Issue? && lines[i].number == n
    decreases |lines|
  {
    if lines != [] {
      var m := |lines| - 1;
      ItemsAreTheIssues(lines[..m], n);
      assert forall i | 0 <= i < m :: lines[..m][i] == lines[i];
    }
  }

  /** Its flags are those of the last line that names it. */
  lemma {:induction false} ItemsAreAsTold(lines: seq<GhLine>, i: nat)
    requires i < |lines| && lines[i].Issue?
    requires forall j | i < j < |lines| && lines[j].Issue? :: lines[j].number != lines[i].number
    ensures lines[i].number in ItemsOf(lines) && ItemsOf(lines)[lines[i].number] == lines[i].item
    decreases |lines|
  {
    if i < |lines| - 1 {
      ItemsAreAsTold(lines[..|lines| - 1], i);
    }
  }

  /** The issues, or an error when `gh` failed, printed something else, named one twice or named none. */
  method FetchItems(answer: Option<seq<GhLine>>) returns (r: Result<map<nat, Item>, ReadError>)
    ensures r.Ok? <==> answer.Some? && Readable(answer.value)
    ensures r.Ok? ==> r.value == ItemsOf(answer.value)
    ensures r.Ok? ==> forall i | 0 <= i < |answer.value| && answer.value[i].Issue? ::
              var line := answer.value[i]; line.number in r.value && r.value[line.number] == line.item
  {
    if answer.None? {
      return Err(NoAnswer);
    }
    var lines := answer.value;
    var items: map<nat, Item> := map[];
    var k := 0;
    while k < |lines|
      invariant k <= |lines| && items == ItemsOf(lines[..k])
      invariant forall i | 0 <= i < k :: !lines[i].Unreadable?
      invariant forall i, j | 0 <= i < j < k && lines[i].Issue? && lines[j].Issue? :: lines[i].number != lines[j].number
    {
      assert lines[..k + 1][..k] == lines[..k];
      if lines[k].Unreadable? {
        return Err(BadLine);
      }
      if lines[k].Issue? {
        ItemsAreTheIssues(lines[..k], lines[k].number);
        if lines[k].number in items {
          return Err(Twice(lines[k].number));
        }
        items := items[lines[k].number := lines[k].item];
      }
      k := k + 1;
    }
    assert lines[..k] == lines;
    if items == map[] {
      NoItemsNoIssues(lines);
      return Err(NoIssues);
    }
    var n :| n in items.Keys;
    ItemsAreTheIssues(lines, n);
    forall i | 0 <= i < |lines| && lines[i].Issue?
      ensures lines[i].number in items && items[lines[i].number] == lines[i].item
    {
      ItemsAreAsTold(lines, i);
    }
    return Ok(items);
  }

  lemma NoItemsNoIssues(lines: seq<GhLine>)
    requires ItemsOf(lines) == map[]
    ensures forall i | 0 <= i < |lines| :: !lines[i].Issue?
  {
    forall i | 0 <= i < |lines| ensures !lines[i].Issue? {
      if lines[i].Issue? {
        ItemsAreTheIssues(lines, lines[i].number);
      }
    }
  }

  /** GitHub lists `n` as an issue that is no pull request, open or closed as said. */
  predicate Lists(lines: seq<GhLine>, n: nat, open: bool) {
    exists i | 0 <= i < |lines| :: lines[i] == Issue(n, Item(open, false))
  }

  predicate HasOpenRow(rows: seq<Row>, n: nat) {
    exists r | r in rows :: n in r.numbers && !r.struck && !r.closedSection
  }

  /** What a row may name: an issue that stays open, or under a strike or a closed heading one that is closed or will be. */
  predicate MayName(r: Row, n: nat, lines: seq<GhLine>, willClose: set<nat>) {
    if r.struck || r.closedSection then Lists(lines, n, false) || (Lists(lines, n, true) && n in willClose)
    else Lists(lines, n, true) && n !in willClose
  }

  /** Every issue that stays open has an open row, and every row names only what it may. */
  ghost predicate InAgreement(rows: seq<Row>, lines: seq<GhLine>, willClose: set<nat>) {
    && (forall n: nat | Lists(lines, n, true) && n !in willClose :: HasOpenRow(rows, n))
    && (forall r, n | r in rows && n in r.numbers :: MayName(r, n, lines, willClose))
  }

  lemma ListedAsKnown(lines: seq<GhLine>, n: nat, open: bool)
    requires Readable(lines)
    ensures Lists(lines, n, open) <==> n in ItemsOf(lines) && ItemsOf(lines)[n] == Item(open, false)
  {
    ItemsAreTheIssues(lines, n);
    if i :| 0 <= i < |lines| && lines[i].Issue? && lines[i].number == n {
      ItemsAreAsTold(lines, i);
    }
  }

  /** The three rules in the words of the ledger and of GitHub. */
  lemma RulesAsWritten(rows: seq<Row>, lines: seq<GhLine>, willClose: set<nat>)
    requires Readable(lines)
    ensures AllRulesHold(rows, ItemsOf(lines), willClose) <==> InAgreement(rows, lines, willClose)
  {
    var items := ItemsOf(lines);
    forall n: nat
      ensures StaysOpen(items, willClose, n) <==> Lists(lines, n, true) && n !in willClose
      ensures IsClosed(items, willClose, n) <==> Lists(lines, n, false) || (Lists(lines, n, true) && n in willClose)
      ensures Covered(rows, n) <==> HasOpenRow(rows, n)
    {
      ListedAsKnown(lines, n, true);
      ListedAsKnown(lines, n, false);
      if i :| 0 <= i < |rows| && Covers(rows[i], n) { assert rows[i] in rows; }
    }
  }

  predicate Refuses(lines: seq<Line>) {
    exists i | 0 <= i < |lines| :: lines[i].Refused?
  }

  /**
   The exit status: two if and only if the ledger or GitHub cannot be read, else
   one if and only if some rule fails. A failure to read is never a pass.
   */
  method Run(ledger: Option<seq<Line>>, github: Option<seq<GhLine>>, willClose: set<nat>) returns (status: nat)
    ensures status in {0, 1, 2}
    ensures status == 2 <==> ledger.None? || Refuses(ledger.value) || github.None? || !Readable(github.value)
    ensures status != 2 ==>
      (status == 0 <==> InAgreement(RowsBefore(ledger.value, |ledger.value|), github.value, willClose))
  {
    if ledger.None? {
      return 2;
    }
    var rows := ParseLedger(ledger.value);
    if rows.Err? {
      return 2;
    }
    var items := FetchItems(github);
    if items.Err? {
      return 2;
    }
    var report;
    ghost var listed;
    report, listed := Check(rows.value, items.value, willClose);
    EmptyReportIsAgreement(rows.value, items.value, willClose, listed);
    RulesAsWritten(rows.value, github.value, willClose);
    status := if report.violations != [] then 1 else 0;
  }
}
