/** Citation markers in a reply: what it shows, what it counts, and `validate_citations`. */
module Citations {
  /** A reply is a list of these; where the code spans and fences lie is given with each. `fenced` marks a group on a line that starts with a fence run, which is never split. */
  datatype Piece =
    | Prose(text: string)
    | Single(index: nat, inCode: bool)
    | Group(indices: seq<nat>, inCode: bool, fenced: bool)

  predicate Splits(p: Piece) {
    p.Group? && !p.inCode && !p.fenced
  }

  function Singles(indices: seq<nat>): seq<Piece> {
    seq(|indices|, i requires 0 <= i < |indices| => Single(indices[i], false))
  }

  /** Each grouped marker outside code as single markers; everything else as it was. */
  function Expand(s: seq<Piece>): seq<Piece> {
    if s == [] then []
    else (if Splits(s[0]) then Singles(s[0].indices) else [s[0]]) + Expand(s[1..])
  }

  function Written(s: seq<Piece>): set<nat> {
    set p | p in s && p.Single? :: p.index
  }

  function WrittenOutsideCode(s: seq<Piece>): set<nat> {
    set p | p in s && p.Single? && !p.inCode :: p.index
  }

  function Grouped(s: seq<Piece>): set<nat> {
    set p, n | p in s && Splits(p) && n in p.indices :: n
  }

  /** The markers outside code, or all of them when there is none outside. */
  function CitedMarkers(s: seq<Piece>): set<nat> {
    if WrittenOutsideCode(s) != {} then WrittenOutsideCode(s) else Written(s)
  }

  datatype Verdict = Verdict(valid: bool, cited: set<nat>, singly: set<nat>)

  predicate OutOfRange(indices: set<nat>, bullets: nat) {
    exists i | i in indices :: i < 1 || i > bullets
  }

  function Validate(refusal: bool, s: seq<Piece>, bullets: nat): Verdict {
    if refusal then Verdict(true, {}, {})
    else
      var cited, singly := CitedMarkers(Expand(s)), CitedMarkers(s);
      Verdict(!OutOfRange(cited + singly, bullets), cited, singly)
  }

  // What splitting a group does

  lemma {:induction false} ExpandKeeps(s: seq<Piece>, p: Piece)
    requires !p.Single? || p.inCode
    ensures p in Expand(s) <==> p in s && !Splits(p)
  {
    if s != [] {
      ExpandKeeps(s[1..], p);
      assert s == [s[0]] + s[1..];
    }
  }

  lemma {:induction false} ExpandShows(s: seq<Piece>, n: nat)
    ensures Single(n, false) in Expand(s) <==> Single(n, false) in s || n in Grouped(s)
  {
    if s != [] {
      ExpandShows(s[1..], n);
      assert s == [s[0]] + s[1..];
      assert n in Grouped(s) <==> (Splits(s[0]) && n in s[0].indices) || n in Grouped(s[1..]);
      if Splits(s[0]) && n in s[0].indices {
        var i :| 0 <= i < |s[0].indices| && s[0].indices[i] == n;
        assert Singles(s[0].indices)[i] == Single(n, false);
      }
    }
  }

  /** Splitting shows every grouped index beside the ones written singly, and removes none. */
  lemma ExpandAddsTheGroups(s: seq<Piece>)
    ensures WrittenOutsideCode(Expand(s)) == WrittenOutsideCode(s) + Grouped(s)
    ensures Written(Expand(s)) == Written(s) + Grouped(s)
  {
    forall n: nat
      ensures n in WrittenOutsideCode(Expand(s)) <==> n in WrittenOutsideCode(s) + Grouped(s)
      ensures n in Written(Expand(s)) <==> n in Written(s) + Grouped(s)
    {
      ExpandShows(s, n);
      ExpandKeeps(s, Single(n, true));
      SinglesWritten(s, n);
      SinglesWritten(Expand(s), n);
    }
  }

  lemma SinglesWritten(s: seq<Piece>, n: nat)
    ensures n in WrittenOutsideCode(s) <==> Single(n, false) in s
    ensures n in Written(s) <==> Single(n, false) in s || Single(n, true) in s
  {
  }

  lemma {:induction false} NothingToExpand(s: seq<Piece>)
    requires forall p | p in s :: !Splits(p)
    ensures Expand(s) == s
  {
    if s != [] {
      NothingToExpand(s[1..]);
    }
  }

  lemma ExpandIsIdempotent(s: seq<Piece>)
    ensures Expand(Expand(s)) == Expand(s)
  {
    forall p | p in Expand(s) && !p.Single? ensures !Splits(p) {
      ExpandKeeps(s, p);
    }
    NothingToExpand(Expand(s));
  }

  // What a valid reply promises

  predicate ShowsOutsideCode(s: seq<Piece>, n: nat) {
    Single(n, false) in s || exists p | p in s :: p.Group? && !p.inCode && !p.fenced && n in p.indices
  }

  ghost predicate CountsMarker(s: seq<Piece>, n: nat) {
    Single(n, false) in s || (Single(n, true) in s && forall m: nat :: Single(m, false) !in s)
  }

  ghost predicate ShowsMarker(s: seq<Piece>, n: nat) {
    ShowsOutsideCode(s, n) || (Single(n, true) in s && forall m: nat :: !ShowsOutsideCode(s, m))
  }

  /**
   What a reply's verdict says, piece by piece: a marker in code stands in only
   when no marker is outside it, and the reply is valid exactly when it refuses or
   every marker it shows or counts is the number of a bullet.
   */
  lemma VerdictExactly(refusal: bool, s: seq<Piece>, bullets: nat)
    ensures var v := Validate(refusal, s, bullets);
      && (v.valid <==> refusal || forall n: nat | n in v.cited || n in v.singly :: 1 <= n <= bullets)
      && (forall n: nat :: n in v.singly <==> !refusal && CountsMarker(s, n))
      && (forall n: nat :: n in v.cited <==> !refusal && ShowsMarker(s, n))
  {
    ExpandAddsTheGroups(s);
    forall n: nat
      ensures n in WrittenOutsideCode(s) <==> Single(n, false) in s
      ensures n in Written(s) <==> Single(n, false) in s || Single(n, true) in s
      ensures n in WrittenOutsideCode(s) + Grouped(s) <==> ShowsOutsideCode(s, n)
    {
      SinglesWritten(s, n);
    }
  }

  /** A valid reply shows and counts only real bullets, and one that counts a bullet shows one. */
  lemma ValidIsInRange(refusal: bool, s: seq<Piece>, bullets: nat)
    ensures var v := Validate(refusal, s, bullets);
      && (v.valid ==> forall i | i in v.cited + v.singly :: 1 <= i <= bullets)
      && (v.singly != {} ==> v.cited != {})
  {
    ExpandAddsTheGroups(s);
  }

  /** Groups never decide grounding: a reply counts a marker if and only if it wrote one singly and is no refusal. */
  lemma GroupsNeverCount(refusal: bool, s: seq<Piece>, bullets: nat)
    ensures Validate(refusal, s, bullets).singly != {} <==> !refusal && exists p :: p in s && p.Single?
  {
    if p :| p in s && p.Single? {
      assert p.index in Written(s);
    }
  }

  /**
   The counted markers are among the shown ones if and only if some marker is
   written outside code, no group is split, or every marker in code is in a
   group too.
   */
  lemma CountedIsShownExactlyWhen(s: seq<Piece>, bullets: nat)
    ensures var v := Validate(false, s, bullets);
      v.singly <= v.cited <==>
      WrittenOutsideCode(s) != {} || Grouped(s) == {} || Written(s) <= Grouped(s)
  {
    ExpandAddsTheGroups(s);
  }

  /** The code fallback alone counts a marker the reader sees no card for: `[1]` in code beside the group `[2, 3]`. */
  lemma CodeMarkerIsCountedButNotShown()
    ensures var v := Validate(false, [Single(1, true), Group([2, 3], false, false)], 3);
      v.valid && v.singly == {1} && v.cited == {2, 3}
  {
    var s := [Single(1, true), Group([2, 3], false, false)];
    ExpandAddsTheGroups(s);
    assert Grouped(s) == {2, 3} by {
      assert s[1] in s && Splits(s[1]) && [2, 3][0] == 2 && [2, 3][1] == 3;
      assert 2 in s[1].indices && 3 in s[1].indices;
    }
    assert Written(s) == {1} by { assert s[0] in s; }
  }

  // Where a split group stands

  lemma {:induction false} ExpandsApart(a: seq<Piece>, b: seq<Piece>)
    ensures Expand(a + b) == Expand(a) + Expand(b)
    decreases |a|
  {
    if a == [] {
      assert a + b == b;
    } else {
      ExpandsApart(a[1..], b);
      assert (a + b)[0] == a[0] && (a + b)[1..] == a[1..] + b;
    }
  }

  /** A group is replaced where it stands, by its indices in their order; every other piece stays. */
  lemma ExpandsInPlace(a: seq<Piece>, p: Piece, b: seq<Piece>)
    ensures Expand(a + [p] + b) ==
      Expand(a)
      + (if p.Group? && !p.inCode && !p.fenced
         then seq(|p.indices|, i requires 0 <= i < |p.indices| => Single(p.indices[i], false)) else [p])
      + Expand(b)
  {
    ExpandsApart(a + [p], b);
    ExpandsApart(a, [p]);
    assert Expand([p][1..]) == [];
  }
}
