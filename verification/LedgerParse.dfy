/** `parse_ledger`: the rows of a Markdown ledger and the sections they stand in. */
module LedgerParse {
  import opened Wrappers

  /** What the patterns read in a line; a table line keeps its number of cells and the numbers in its first one. */
  datatype Line =
    | Refused
    | Heading(level: nat, closedWord: bool)
    | Table(cells: nat, numbers: seq<nat>, struck: bool)
    | Plain

  datatype Row = Row(line: nat, numbers: seq<nat>, struck: bool, closedSection: bool)

  datatype Entry = Entry(level: nat, closed: bool)

  // What a section is

  /** The heading at `h` encloses position `i`: no heading between them is of its level or above. */
  predicate Encloses(lines: seq<Line>, h: nat, i: nat)
    requires i <= |lines|
  {
    h < i && lines[h].Heading? && forall j | h < j < i && lines[j].Heading? :: lines[j].level > lines[h].level
  }

  predicate ClosesOver(lines: seq<Line>, h: nat, i: nat)
    requires i <= |lines|
  {
    Encloses(lines, h, i) && lines[h].closedWord
  }

  predicate InClosedSection(lines: seq<Line>, i: nat)
    requires i <= |lines|
  {
    exists h: nat | h < i :: ClosesOver(lines, h, i)
  }

  predicate IsRow(l: Line) {
    l.Table? && l.cells >= 2 && l.numbers != []
  }

  /** The rows among the first `n` lines, each numbered from one. */
  function RowsBefore(lines: seq<Line>, n: nat): seq<Row>
    requires n <= |lines|
  {
    if n == 0 then []
    else
      RowsBefore(lines, n - 1) +
      if IsRow(lines[n - 1])
      then [Row(n, lines[n - 1].numbers, lines[n - 1].struck, InClosedSection(lines, n - 1))]
      else []
  }

  predicate FirstRefused(lines: seq<Line>, n: nat) {
    n < |lines| && lines[n].Refused? && forall i | 0 <= i < n :: !lines[i].Refused?
  }

  // What the stack holds

  /** `at` are the positions of the headings that enclose `i`, in order. */
  ghost predicate Positions(lines: seq<Line>, i: nat, at: seq<nat>)
    requires i <= |lines|
  {
    && (forall k | 0 <= k < |at| :: Encloses(lines, at[k], i))
    && (forall h: nat | h < i && Encloses(lines, h, i) :: h in at)
    && (forall k, m | 0 <= k < m < |at| :: at[k] < at[m])
  }

  predicate ParentClosed(stack: seq<Entry>, k: nat)
    requires k <= |stack|
  {
    k > 0 && stack[k - 1].closed
  }

  /** The stack has their levels, and beside each whether it or its parent is closed. */
  ghost predicate Mirrors(lines: seq<Line>, stack: seq<Entry>, at: seq<nat>) {
    |stack| == |at| && forall k: nat | k < |at| :: EntryMirrors(lines, stack, at, k)
  }

  predicate EntryMirrors(lines: seq<Line>, stack: seq<Entry>, at: seq<nat>, k: nat) {
    && k < |at| && k < |stack| && at[k] < |lines| && lines[at[k]].Heading? && stack[k].level == lines[at[k]].level
    && stack[k].closed == (lines[at[k]].closedWord || ParentClosed(stack, k))
  }

  predicate Rising(stack: seq<Entry>) {
    forall k, m | 0 <= k < m < |stack| :: stack[k].level < stack[m].level
  }

  ghost predicate StackOf(lines: seq<Line>, i: nat, stack: seq<Entry>, at: seq<nat>)
    requires i <= |lines|
  {
    Positions(lines, i, at) && Mirrors(lines, stack, at) && Rising(stack)
  }

  ghost predicate SaysClosed(lines: seq<Line>, at: seq<nat>, m: nat) {
    m < |at| && at[m] < |lines| && lines[at[m]].Heading? && lines[at[m]].closedWord
  }

  ghost predicate ClosedAtOrAbove(lines: seq<Line>, at: seq<nat>, k: nat) {
    exists m: nat | m <= k :: SaysClosed(lines, at, m)
  }

  /** Each flag is the OR of the closed words of its heading and all above it. */
  lemma {:induction false} FlagIsTheOr(lines: seq<Line>, stack: seq<Entry>, at: seq<nat>, k: nat)
    requires Mirrors(lines, stack, at) && k < |stack|
    ensures stack[k].closed <==> ClosedAtOrAbove(lines, at, k)
  {
    assert EntryMirrors(lines, stack, at, k);
    assert lines[at[k]].closedWord <==> SaysClosed(lines, at, k);
    if k > 0 {
      FlagIsTheOr(lines, stack, at, k - 1);
    }
  }

  /** The flag on top says whether the position is in a closed section. */
  lemma TopTellsTheSection(lines: seq<Line>, i: nat, stack: seq<Entry>, at: seq<nat>)
    requires i <= |lines| && Positions(lines, i, at) && Mirrors(lines, stack, at)
    ensures InClosedSection(lines, i) <==> ParentClosed(stack, |stack|)
  {
    if stack != [] {
      FlagIsTheOr(lines, stack, at, |stack| - 1);
      if m: nat :| SaysClosed(lines, at, m) {
        assert ClosesOver(lines, at[m], i);
      }
    }
    if h: nat :| h < i && ClosesOver(lines, h, i) {
      assert h in at;
      var m :| 0 <= m < |at| && at[m] == h;
      assert SaysClosed(lines, at, m);
    }
  }

  /** A line that is no heading changes no section. */
  lemma OtherLineKeepsTheStack(lines: seq<Line>, i: nat, at: seq<nat>)
    requires i < |lines| && !lines[i].Heading? && Positions(lines, i, at)
    ensures Positions(lines, i + 1, at)
  {
    forall h: nat | h <= i ensures Encloses(lines, h, i + 1) <==> h < i && Encloses(lines, h, i) {
    }
  }

  /** A heading closes the sections of its level and below and opens its own. */
  lemma HeadingEnds(lines: seq<Line>, i: nat, h: nat)
    requires i < |lines| && lines[i].Heading? && h <= i
    ensures Encloses(lines, h, i + 1) <==> h == i || (Encloses(lines, h, i) && lines[h].level < lines[i].level)
  {
  }

  lemma PositionIsPushed(lines: seq<Line>, i: nat, at: seq<nat>, keep: nat)
    requires i < |lines| && lines[i].Heading? && Positions(lines, i, at) && keep <= |at|
    requires forall k | 0 <= k < |at| :: at[k] < i && (k < keep <==> lines[at[k]].level < lines[i].level)
    ensures Positions(lines, i + 1, at[..keep] + [i])
  {
    var up := at[..keep] + [i];
    forall k | 0 <= k < |up| ensures Encloses(lines, up[k], i + 1) {
      HeadingEnds(lines, i, up[k]);
    }
    forall h: nat | h <= i && Encloses(lines, h, i + 1) ensures h in up {
      HeadingEnds(lines, i, h);
      if h < i {
        var k :| 0 <= k < |at| && at[k] == h;
        assert up[k] == h;
      } else {
        assert up[keep] == h;
      }
    }
  }

  lemma EntryIsPushed(lines: seq<Line>, i: nat, stack: seq<Entry>, at: seq<nat>, keep: nat)
    requires i < |lines| && lines[i].Heading? && Mirrors(lines, stack, at) && keep <= |at|
    ensures var parent := ParentClosed(stack, keep);
      Mirrors(lines, stack[..keep] + [Entry(lines[i].level, parent || lines[i].closedWord)], at[..keep] + [i])
  {
    var parent := ParentClosed(stack, keep);
    var pushed, up := stack[..keep] + [Entry(lines[i].level, parent || lines[i].closedWord)], at[..keep] + [i];
    assert forall k | 0 <= k < keep :: pushed[k] == stack[k] && up[k] == at[k];
    forall k: nat | k < |up| ensures EntryMirrors(lines, pushed, up, k) {
      if k < keep { assert EntryMirrors(lines, stack, at, k); }
      assert ParentClosed(pushed, k) == ParentClosed(stack, k);
    }
  }

  lemma HeadingIsPushed(lines: seq<Line>, i: nat, stack: seq<Entry>, at: seq<nat>, keep: nat)
    requires i < |lines| && lines[i].Heading? && StackOf(lines, i, stack, at) && keep <= |stack|
    requires forall k | keep <= k < |stack| :: stack[k].level >= lines[i].level
    requires keep > 0 ==> stack[keep - 1].level < lines[i].level
    ensures var parent := ParentClosed(stack, keep);
      StackOf(lines, i + 1, stack[..keep] + [Entry(lines[i].level, parent || lines[i].closedWord)], at[..keep] + [i])
  {
    forall k | 0 <= k < |at| ensures at[k] < i && (k < keep <==> lines[at[k]].level < lines[i].level) {
      assert Encloses(lines, at[k], i) && EntryMirrors(lines, stack, at, k);
    }
    PositionIsPushed(lines, i, at, keep);
    EntryIsPushed(lines, i, stack, at, keep);
  }

  // The stack as a function of the lines

  /** Without the entries of a level and below. */
  function Popped(stack: seq<Entry>, level: nat): seq<Entry> {
    if stack != [] && stack[|stack| - 1].level >= level then Popped(stack[..|stack| - 1], level) else stack
  }

  function Opened(stack: seq<Entry>, level: nat, closedWord: bool): seq<Entry> {
    var held := Popped(stack, level);
    held + [Entry(level, ParentClosed(held, |held|) || closedWord)]
  }

  function StackAt(lines: seq<Line>, n: nat): seq<Entry>
    requires n <= |lines|
  {
    if n == 0 then []
    else if lines[n - 1].Heading? then Opened(StackAt(lines, n - 1), lines[n - 1].level, lines[n - 1].closedWord)
    else StackAt(lines, n - 1)
  }

  lemma {:induction false} PoppedIsAFront(stack: seq<Entry>, level: nat)
    ensures var keep := |Popped(stack, level)|;
      && keep <= |stack| && Popped(stack, level) == stack[..keep]
      && (forall k | keep <= k < |stack| :: stack[k].level >= level)
      && (keep > 0 ==> stack[keep - 1].level < level)
    decreases |stack|
  {
    if stack != [] && stack[|stack| - 1].level >= level {
      PoppedIsAFront(stack[..|stack| - 1], level);
    }
  }

  lemma HeadingOpens(lines: seq<Line>, i: nat, stack: seq<Entry>, at: seq<nat>) returns (up: seq<nat>)
    requires i < |lines| && lines[i].Heading? && StackOf(lines, i, stack, at)
    ensures StackOf(lines, i + 1, Opened(stack, lines[i].level, lines[i].closedWord), up)
  {
    var held := Popped(stack, lines[i].level);
    PoppedIsAFront(stack, lines[i].level);
    assert ParentClosed(held, |held|) == ParentClosed(stack, |held|);
    HeadingIsPushed(lines, i, stack, at, |held|);
    up := at[..|held|] + [i];
  }

  lemma OtherLineKeepsStackOf(lines: seq<Line>, i: nat, stack: seq<Entry>, at: seq<nat>)
    requires i < |lines| && !lines[i].Heading? && StackOf(lines, i, stack, at)
    ensures StackOf(lines, i + 1, stack, at)
  {
    OtherLineKeepsTheStack(lines, i, at);
  }

  lemma LineIsRead(lines: seq<Line>, i: nat, stack: seq<Entry>, next: seq<Entry>, at: seq<nat>) returns (up: seq<nat>)
    requires i < |lines| && StackOf(lines, i, stack, at)
    requires next == if lines[i].Heading? then Opened(stack, lines[i].level, lines[i].closedWord) else stack
    ensures StackOf(lines, i + 1, next, up)
  {
    if lines[i].Heading? {
      up := HeadingOpens(lines, i, stack, at);
    } else {
      OtherLineKeepsStackOf(lines, i, stack, at);
      up := at;
    }
  }

  lemma NothingIsHeld(lines: seq<Line>)
    ensures StackOf(lines, 0, [], [])
  {
  }

  /** At every line the stack holds the headings that enclose it, levels rising, each with the OR of its closed words. */
  lemma {:induction false} StackHoldsTheEnclosing(lines: seq<Line>, n: nat) returns (at: seq<nat>)
    requires n <= |lines|
    ensures StackOf(lines, n, StackAt(lines, n), at)
  {
    if n == 0 {
      NothingIsHeld(lines);
      return [];
    }
    var before := StackHoldsTheEnclosing(lines, n - 1);
    var stack, next := StackAt(lines, n - 1), StackAt(lines, n);
    at := LineIsRead(lines, n - 1, stack, next, before);
  }

  /** So its top says whether a line stands in a closed section. */
  lemma TopIsTheSection(lines: seq<Line>, n: nat)
    requires n <= |lines|
    ensures InClosedSection(lines, n) <==> ParentClosed(StackAt(lines, n), |StackAt(lines, n)|)
  {
    var at := StackHoldsTheEnclosing(lines, n);
    TopTellsTheSection(lines, n, StackAt(lines, n), at);
  }

  /** What a heading does to the stack. */
  method OpenSection(stack: seq<Entry>, level: nat, closedWord: bool) returns (held: seq<Entry>)
    ensures held == Opened(stack, level, closedWord)
    ensures held != [] && held[|held| - 1].level == level && |held| <= |stack| + 1
  {
    held := stack;
    while held != [] && held[|held| - 1].level >= level
      invariant |held| <= |stack| && Popped(held, level) == Popped(stack, level)
      decreases |held|
    {
      held := held[..|held| - 1];
    }
    var parentClosed := ParentClosed(held, |held|);
    held := held + [Entry(level, parentClosed || closedWord)];
  }

  /**
   Every table row with its own section, or the number of the first line that is
   refused.
   */
  method ParseLedger(lines: seq<Line>) returns (r: Result<seq<Row>, nat>)
    ensures r.Ok? ==> r.value == RowsBefore(lines, |lines|) && forall i | 0 <= i < |lines| :: !lines[i].Refused?
    ensures r.Err? ==> r.error > 0 && FirstRefused(lines, r.error - 1)
  {
    var rows: seq<Row>, stack: seq<Entry> := [], [];
    var i := 0;
    while i < |lines|
      invariant i <= |lines| && stack == StackAt(lines, i) && rows == RowsBefore(lines, i)
      invariant forall j | 0 <= j < i :: !lines[j].Refused?
    {
      var line := lines[i];
      if line.Refused? {
        return Err(i + 1);
      }
      if line.Heading? {
        stack := OpenSection(stack, line.level, line.closedWord);
      } else if line.Table? && line.cells >= 2 && line.numbers != [] {
        TopIsTheSection(lines, i);
        rows := rows + [Row(i + 1, line.numbers, line.struck, ParentClosed(stack, |stack|))];
      }
      i := i + 1;
    }
    return Ok(rows);
  }

  /** The rows are the table lines with a number, in order, each with the section it stands in. */
  lemma {:induction false} RowsAreTheTableLines(lines: seq<Line>, n: nat, r: Row)
    requires n <= |lines|
    ensures r in RowsBefore(lines, n) <==>
      && 1 <= r.line <= n && lines[r.line - 1].Table? && lines[r.line - 1].cells >= 2 && lines[r.line - 1].numbers != []
      && r.numbers == lines[r.line - 1].numbers && r.struck == lines[r.line - 1].struck
      && (r.closedSection <==> InClosedSection(lines, r.line - 1))
  {
    if n > 0 {
      RowsAreTheTableLines(lines, n - 1, r);
    }
  }
}
