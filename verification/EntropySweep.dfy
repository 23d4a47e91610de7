/** The entropy sweep: `(?<!C)C{32,}(?!C)` as a matcher, its simple form, and the path sweep. */
module EntropySweep {
  import opened Collections
  import opened LeadingRuns
  import opened Wrappers

  const SECRET_VALUE := "[REDACTED]"
  const FLOOR: nat := 32

  /** `C`, the class of the pattern. */
  predicate InClass(c: char) {
    || 'A' <= c <= 'Z' || 'a' <= c <= 'z' || '0' <= c <= '9'
    || c == '+' || c == '/' || c == '=' || c == '_' || c == '-'
  }

  /** The class, and the same class without `/`. Most lemmas below hold of any class the marker's ends are outside of. */
  const FULL: char -> bool := c => InClass(c)
  const NO_SLASH: char -> bool := c => InClass(c) && c != '/'

  predicate MarkerEndsOutside(cls: char -> bool) {
    !cls('[') && !cls(']')
  }

  // The regular expression, as the engine runs it

  /** `(?<!C)C{32,}(?!C)` or the bare `C{32,}`. */
  datatype Pattern = Bounded | Bare

  /** Greedy repetition gives characters back one at a time until the lookahead holds. */
  function GiveBack(cls: char -> bool, s: string, i: nat, n: nat): Option<nat>
    requires i + n <= |s|
  {
    if n < FLOOR then None
    else if i + n == |s| || !cls(s[i + n]) then Some(n)
    else GiveBack(cls, s, i, n - 1)
  }

  /** The length of the match that starts at `i`, if there is one. */
  function MatchAt(cls: char -> bool, p: Pattern, s: string, i: nat): (m: Option<nat>)
    requires i <= |s|
    ensures m.Some? ==> FLOOR <= m.value <= |s| - i
  {
    match p
    case Bounded =>
      if i > 0 && cls(s[i - 1]) then None
      else
        var n := RunLen(cls, s[i..]);
        if n >= FLOOR then GiveBackAll(cls, s, i, n); GiveBack(cls, s, i, n) else None
    case Bare =>
      var n := RunLen(cls, s[i..]);
      if n >= FLOOR then Some(n) else None
  }

  /** At the end of a whole run the lookahead holds at once: nothing is given back. */
  lemma GiveBackAll(cls: char -> bool, s: string, i: nat, n: nat)
    requires i <= |s| && n == RunLen(cls, s[i..]) && n >= FLOOR
    ensures GiveBack(cls, s, i, n) == Some(n)
  {
  }

  /** `re.sub`: leftmost match, replace, go on after it. */
  function SubFrom(cls: char -> bool, p: Pattern, s: string, i: nat): string
    requires i <= |s|
    decreases |s| - i
  {
    if i == |s| then ""
    else
      var m := MatchAt(cls, p, s, i);
      if m.Some? then SECRET_VALUE + SubFrom(cls, p, s, i + m.value)
      else [s[i]] + SubFrom(cls, p, s, i + 1)
  }

  // The simple form

  /** Copies short runs and single characters, replaces runs of the floor's length or more. */
  function Sweep(cls: char -> bool, s: string): string
    decreases |s|
  {
    if s == "" then ""
    else
      var r := RunLen(cls, s);
      if r == 0 then [s[0]] + Sweep(cls, s[1..])
      else (if r >= FLOOR then SECRET_VALUE else s[..r]) + Sweep(cls, s[r..])
  }

  /** No run crosses `i`. */
  predicate AtEdge(cls: char -> bool, s: string, i: nat)
    requires i <= |s|
  {
    i == 0 || i == |s| || !cls(s[i - 1]) || !cls(s[i])
  }

  /** A run that starts at `i`, told by positions of the whole text. */
  predicate RunAt(cls: char -> bool, s: string, i: nat, r: nat) {
    && i + r <= |s|
    && (forall k | i <= k < i + r :: cls(s[k]))
    && (i + r < |s| ==> !cls(s[i + r]))
  }

  lemma RunIsRunLen(cls: char -> bool, s: string, i: nat, r: nat)
    requires RunAt(cls, s, i, r)
    ensures RunLen(cls, s[i..]) == r
  {
    assert forall k | i <= k < |s| :: s[k] == s[i..][k - i];
    RunLenIs(cls, s[i..], r);
  }

  /** In a run that is too short neither pattern matches, so its characters are copied. */
  lemma {:induction false} ShortRunIsCopied(cls: char -> bool, p: Pattern, s: string, i: nat, r: nat, j: nat)
    requires RunAt(cls, s, i, r) && r < FLOOR && i <= j <= i + r
    ensures SubFrom(cls, p, s, j) == s[j..i + r] + SubFrom(cls, p, s, i + r)
    decreases i + r - j
  {
    if j < i + r {
      ShortRunIsCopied(cls, p, s, i, r, j + 1);
      Regroup([s[j]], s[j + 1..i + r], SubFrom(cls, p, s, i + r));
      assert s[j..i + r] == [s[j]] + s[j + 1..i + r];
    } else {
      assert s[j..i + r] == "";
    }
  }

  /** What both forms put in place of a run. */
  function Replacement(s: string, i: nat, r: nat): string
    requires i + r <= |s|
  {
    if r >= FLOOR then SECRET_VALUE else s[i..i + r]
  }

  lemma SweepOfRun(cls: char -> bool, s: string, i: nat, r: nat)
    requires RunAt(cls, s, i, r) && r > 0
    ensures Sweep(cls, s[i..]) == Replacement(s, i, r) + Sweep(cls, s[i + r..])
  {
    RunIsRunLen(cls, s, i, r);
    assert s[i..][r..] == s[i + r..] && s[i..][..r] == s[i..i + r];
  }

  lemma SweepOutside(cls: char -> bool, s: string, i: nat)
    requires i < |s| && !cls(s[i])
    ensures Sweep(cls, s[i..]) == [s[i]] + Sweep(cls, s[i + 1..])
  {
    assert s[i..][1..] == s[i + 1..] && s[i..][0] == s[i];
  }

  lemma SubOfLongRun(cls: char -> bool, p: Pattern, s: string, i: nat, r: nat)
    requires RunAt(cls, s, i, r) && AtEdge(cls, s, i) && r >= FLOOR
    ensures SubFrom(cls, p, s, i) == SECRET_VALUE + SubFrom(cls, p, s, i + r)
  {
  }

  lemma SubOfRun(cls: char -> bool, p: Pattern, s: string, i: nat, r: nat)
    requires RunAt(cls, s, i, r) && r > 0 && AtEdge(cls, s, i)
    ensures SubFrom(cls, p, s, i) == Replacement(s, i, r) + SubFrom(cls, p, s, i + r)
  {
    if r >= FLOOR {
      SubOfLongRun(cls, p, s, i, r);
      assert Replacement(s, i, r) == SECRET_VALUE;
    } else {
      ShortRunIsCopied(cls, p, s, i, r, i);
      assert Replacement(s, i, r) == s[i..i + r];
    }
  }

  /** A run starts everywhere; after it, and after a character of none, no run crosses. */
  lemma RunStarts(cls: char -> bool, s: string, i: nat) returns (r: nat)
    requires i < |s|
    ensures RunAt(cls, s, i, r) && AtEdge(cls, s, i + r)
    ensures r == 0 ==> !cls(s[i]) && AtEdge(cls, s, i + 1)
  {
    r := RunLen(cls, s[i..]);
  }

  /** Both forms put `piece` in place of the characters from `i` to `j`. */
  predicate SameSubStep(cls: char -> bool, p: Pattern, s: string, i: nat, piece: string, j: nat) {
    && i < j <= |s|
    && SubFrom(cls, p, s, i) == piece + SubFrom(cls, p, s, j)
    && Sweep(cls, s[i..]) == piece + Sweep(cls, s[j..])
  }

  lemma SubRunStep(cls: char -> bool, p: Pattern, s: string, i: nat, r: nat)
    requires RunAt(cls, s, i, r) && r > 0 && AtEdge(cls, s, i)
    ensures SameSubStep(cls, p, s, i, Replacement(s, i, r), i + r)
  {
    SubOfRun(cls, p, s, i, r);
    SweepOfRun(cls, s, i, r);
  }

  /** One run or one character at an edge. */
  lemma SubAndSweepStep(cls: char -> bool, p: Pattern, s: string, i: nat, r: nat)
    requires i < |s| && AtEdge(cls, s, i) && RunAt(cls, s, i, r)
    ensures SameSubStep(cls, p, s, i, if r > 0 then Replacement(s, i, r) else [s[i]], if r > 0 then i + r else i + 1)
  {
    if r > 0 {
      SubRunStep(cls, p, s, i, r);
    }
  }

  lemma {:induction false} SubIsSweep(cls: char -> bool, p: Pattern, s: string, i: nat)
    requires i <= |s| && AtEdge(cls, s, i)
    ensures SubFrom(cls, p, s, i) == Sweep(cls, s[i..])
    decreases |s| - i
  {
    if i < |s| {
      var r := RunStarts(cls, s, i);
      SubAndSweepStep(cls, p, s, i, r);
      SubIsSweep(cls, p, s, if r > 0 then i + r else i + 1);
    }
  }

  /**
   The sweep equals its simple form, and the lookarounds change nothing while
   the pattern is only used through `sub`: the bare class gives the same text.
   */
  lemma TheSweepIsItsSimpleForm(s: string)
    ensures SubFrom(FULL, Bounded, s, 0) == Sweep(FULL, s)
    ensures SubFrom(FULL, Bare, s, 0) == Sweep(FULL, s)
  {
    SubIsSweep(FULL, Bounded, s, 0);
    SubIsSweep(FULL, Bare, s, 0);
    assert s[0..] == s;
  }

  // What the simple form does, position by position

  /** Thirty-two class characters in a row start at `a`. */
  predicate Window(cls: char -> bool, s: string, a: nat) {
    a + FLOOR <= |s| && forall i | a <= i < a + FLOOR :: cls(s[i])
  }

  predicate NoLongRun(cls: char -> bool, s: string) {
    forall a | 0 <= a < |s| :: !Window(cls, s, a)
  }

  /** Position `i` lies in a class run of thirty-two or more. */
  predicate Blanked(cls: char -> bool, s: string, i: nat) {
    exists a | 0 <= a <= i :: i < a + FLOOR && Window(cls, s, a)
  }

  /** Every blanked stretch as one marker, every other character as it was. */
  function Erased(cls: char -> bool, s: string, i: nat): string
    requires i <= |s|
    decreases |s| - i
  {
    if i == |s| then ""
    else
      (if !Blanked(cls, s, i) then [s[i]]
       else if i == 0 || !Blanked(cls, s, i - 1) then SECRET_VALUE
       else "") + Erased(cls, s, i + 1)
  }

  /** A maximal run is blanked as a whole or not at all. */
  lemma RunIsBlankedWhole(cls: char -> bool, s: string, i: nat, r: nat, k: nat)
    requires RunAt(cls, s, i, r) && (i == 0 || !cls(s[i - 1])) && i <= k < i + r
    ensures Blanked(cls, s, k) <==> r >= FLOOR
  {
    if r >= FLOOR {
      var a := if k + FLOOR <= i + r then k else i + r - FLOOR;
      assert Window(cls, s, a);
    }
    forall a: nat | a <= k < a + FLOOR && Window(cls, s, a) ensures r >= FLOOR {
    }
  }

  predicate AllBlanked(cls: char -> bool, s: string, i: nat, e: nat) {
    forall k: nat | i <= k < e :: Blanked(cls, s, k)
  }

  lemma {:induction false} BlankedRestIsDropped(cls: char -> bool, s: string, j: nat, e: nat)
    requires 0 < j <= e <= |s| && AllBlanked(cls, s, j - 1, e)
    ensures Erased(cls, s, j) == Erased(cls, s, e)
    decreases e - j
  {
    if j < e {
      BlankedRestIsDropped(cls, s, j + 1, e);
    }
  }

  lemma {:induction false} OpenRunIsCopied(cls: char -> bool, s: string, j: nat, e: nat)
    requires j <= e <= |s| && forall k | j <= k < e :: !Blanked(cls, s, k)
    ensures Erased(cls, s, j) == s[j..e] + Erased(cls, s, e)
    decreases e - j
  {
    if j < e {
      OpenRunIsCopied(cls, s, j + 1, e);
    } else {
      assert s[j..e] == "";
    }
  }

  lemma NotBlankedOutside(cls: char -> bool, s: string, i: nat)
    requires i < |s| && !cls(s[i])
    ensures !Blanked(cls, s, i)
  {
  }

  lemma LongRunIsBlanked(cls: char -> bool, s: string, i: nat, r: nat)
    requires RunAt(cls, s, i, r) && r >= FLOOR && (i == 0 || !cls(s[i - 1]))
    ensures AllBlanked(cls, s, i, i + r) && (i == 0 || !Blanked(cls, s, i - 1))
  {
    forall k: nat | i <= k < i + r ensures Blanked(cls, s, k) {
      RunIsBlankedWhole(cls, s, i, r, k);
    }
    if i > 0 { NotBlankedOutside(cls, s, i - 1); }
  }

  lemma StretchIsErased(cls: char -> bool, s: string, i: nat, e: nat)
    requires i < e <= |s| && AllBlanked(cls, s, i, e) && (i == 0 || !Blanked(cls, s, i - 1))
    ensures Erased(cls, s, i) == SECRET_VALUE + Erased(cls, s, e)
  {
    BlankedRestIsDropped(cls, s, i + 1, e);
  }

  lemma LongRunIsErased(cls: char -> bool, s: string, i: nat, r: nat)
    requires RunAt(cls, s, i, r) && r >= FLOOR && (i == 0 || !cls(s[i - 1]))
    ensures Erased(cls, s, i) == SECRET_VALUE + Erased(cls, s, i + r)
  {
    LongRunIsBlanked(cls, s, i, r);
    StretchIsErased(cls, s, i, i + r);
  }

  lemma ShortRunIsErasedNowhere(cls: char -> bool, s: string, i: nat, r: nat)
    requires RunAt(cls, s, i, r) && 0 < r < FLOOR && (i == 0 || !cls(s[i - 1]))
    ensures Erased(cls, s, i) == s[i..i + r] + Erased(cls, s, i + r)
  {
    forall k | i <= k < i + r ensures !Blanked(cls, s, k) {
      RunIsBlankedWhole(cls, s, i, r, k);
    }
    OpenRunIsCopied(cls, s, i, i + r);
  }

  lemma ErasedOfRun(cls: char -> bool, s: string, i: nat, r: nat)
    requires RunAt(cls, s, i, r) && r > 0 && AtEdge(cls, s, i)
    ensures Erased(cls, s, i) == Replacement(s, i, r) + Erased(cls, s, i + r)
    ensures AtEdge(cls, s, i + r)
  {
    assert cls(s[i]);
    if r >= FLOOR {
      LongRunIsErased(cls, s, i, r);
    } else {
      ShortRunIsErasedNowhere(cls, s, i, r);
    }
  }

  /** Both put `piece` in place of the characters from `i` to `j`. */
  predicate SameStep(cls: char -> bool, s: string, i: nat, piece: string, j: nat) {
    && i < j <= |s|
    && Sweep(cls, s[i..]) == piece + Sweep(cls, s[j..])
    && Erased(cls, s, i) == piece + Erased(cls, s, j)
  }

  lemma SameRunStep(cls: char -> bool, s: string, i: nat, r: nat)
    requires RunAt(cls, s, i, r) && r > 0 && AtEdge(cls, s, i)
    ensures SameStep(cls, s, i, Replacement(s, i, r), i + r)
  {
    SweepOfRun(cls, s, i, r);
    ErasedOfRun(cls, s, i, r);
  }

  lemma SweepAndEraseStep(cls: char -> bool, s: string, i: nat, r: nat)
    requires i < |s| && AtEdge(cls, s, i) && RunAt(cls, s, i, r)
    ensures SameStep(cls, s, i, if r > 0 then Replacement(s, i, r) else [s[i]], if r > 0 then i + r else i + 1)
  {
    if r > 0 {
      SameRunStep(cls, s, i, r);
    }
  }

  lemma {:induction false} SweepIsErased(cls: char -> bool, s: string, i: nat)
    requires i <= |s| && AtEdge(cls, s, i)
    ensures Sweep(cls, s[i..]) == Erased(cls, s, i)
    decreases |s| - i
  {
    if i < |s| {
      var r := RunStarts(cls, s, i);
      SweepAndEraseStep(cls, s, i, r);
      SweepIsErased(cls, s, if r > 0 then i + r else i + 1);
    }
  }

  /** The regular expression replaces exactly the maximal runs of thirty-two or more. */
  lemma TheSweepErasesExactlyTheLongRuns(s: string)
    ensures SubFrom(FULL, Bounded, s, 0) == Erased(FULL, s, 0)
  {
    TheSweepIsItsSimpleForm(s);
    SweepIsErased(FULL, s, 0);
    assert s[0..] == s;
  }

  // What is left after a sweep

  lemma WindowOfSuffix(cls: char -> bool, s: string, k: nat, a: nat)
    requires k <= |s|
    ensures Window(cls, s[k..], a) <==> Window(cls, s, a + k)
  {
    var rest := s[k..];
    if a + k + FLOOR <= |s| {
      assert forall i | a <= i < a + FLOOR :: rest[i] == s[i + k];
      assert forall i | a + k <= i < a + k + FLOOR :: s[i] == rest[i - k];
    }
  }

  lemma WindowOfJoin(cls: char -> bool, a: string, b: string, k: nat)
    requires Window(cls, a + b, k)
    ensures || Window(cls, a, k)
            || (k >= |a| && Window(cls, b, k - |a|))
            || (a != "" && b != "" && cls(a[|a| - 1]) && cls(b[0]))
  {
    var c := a + b;
    if k >= |a| {
      assert c[|a|..] == b;
      WindowOfSuffix(cls, c, |a|, k - |a|);
    } else if k + FLOOR > |a| {
      assert cls(c[|a| - 1]) && cls(c[|a|]);
    } else {
      assert forall i | k <= i < k + FLOOR :: a[i] == c[i];
    }
  }

  lemma NoLongRunJoins(cls: char -> bool, a: string, b: string)
    requires NoLongRun(cls, a) && NoLongRun(cls, b)
    requires a == "" || b == "" || !cls(a[|a| - 1]) || !cls(b[0])
    ensures NoLongRun(cls, a + b)
  {
    forall k | 0 <= k < |a + b| && Window(cls, a + b, k) ensures false {
      WindowOfJoin(cls, a, b, k);
    }
  }

  lemma {:induction false} SweptHasNoLongRun(cls: char -> bool, s: string)
    requires MarkerEndsOutside(cls)
    ensures NoLongRun(cls, Sweep(cls, s))
    ensures s != "" && !cls(s[0]) ==> Sweep(cls, s) != "" && Sweep(cls, s)[0] == s[0]
    decreases |s|
  {
    if s != "" {
      var r := RunLen(cls, s);
      if r == 0 {
        SweptHasNoLongRun(cls, s[1..]);
        NoLongRunJoins(cls, [s[0]], Sweep(cls, s[1..]));
      } else {
        SweptHasNoLongRun(cls, s[r..]);
        if r >= FLOOR {
          NoLongRunJoins(cls, SECRET_VALUE, Sweep(cls, s[r..]));
        } else {
          NoLongRunJoins(cls, s[..r], Sweep(cls, s[r..]));
        }
      }
    }
  }

  lemma SuffixHasNoLongRun(cls: char -> bool, s: string, k: nat)
    requires NoLongRun(cls, s) && k <= |s|
    ensures NoLongRun(cls, s[k..])
  {
    forall a | 0 <= a < |s[k..]| ensures !Window(cls, s[k..], a) {
      WindowOfSuffix(cls, s, k, a);
    }
  }

  lemma FrontRunIsShort(cls: char -> bool, s: string)
    requires s != "" && NoLongRun(cls, s)
    ensures RunLen(cls, s) < FLOOR
  {
    assert !Window(cls, s, 0);
  }

  lemma FrontIsCopied(cls: char -> bool, s: string) returns (k: nat)
    requires s != "" && RunLen(cls, s) < FLOOR
    ensures 0 < k <= |s| && Sweep(cls, s) == s[..k] + Sweep(cls, s[k..])
  {
    k := if RunLen(cls, s) == 0 then 1 else RunLen(cls, s);
    assert k == 1 ==> s[..k] == [s[0]];
  }

  lemma {:induction false} NothingToSweep(cls: char -> bool, s: string)
    requires NoLongRun(cls, s)
    ensures Sweep(cls, s) == s
    decreases |s|
  {
    if s != "" {
      FrontRunIsShort(cls, s);
      var k := FrontIsCopied(cls, s);
      SuffixHasNoLongRun(cls, s, k);
      NothingToSweep(cls, s[k..]);
      assert s == s[..k] + s[k..];
    }
  }

  /** The sweep leaves no run of thirty-two or more, and a second sweep changes nothing. */
  lemma SweepIsIdempotent(cls: char -> bool, s: string)
    requires MarkerEndsOutside(cls)
    ensures NoLongRun(cls, Sweep(cls, s))
    ensures Sweep(cls, Sweep(cls, s)) == Sweep(cls, s)
  {
    SweptHasNoLongRun(cls, s);
    NothingToSweep(cls, Sweep(cls, s));
  }

  lemma {:induction false} SweepNeverGrows(cls: char -> bool, s: string)
    ensures |Sweep(cls, s)| <= |s|
    decreases |s|
  {
    if s != "" {
      var r := RunLen(cls, s);
      SweepNeverGrows(cls, s[if r == 0 then 1 else r..]);
    }
  }

  // The path sweep

  function Split(s: string): (parts: seq<string>)
    ensures parts != []
  {
    if s == "" then [""]
    else
      var rest := Split(s[1..]);
      if s[0] == '/' then [""] + rest else [[s[0]] + rest[0]] + rest[1..]
  }

  function Join(parts: seq<string>): string
    requires parts != []
  {
    if |parts| == 1 then parts[0] else parts[0] + "/" + Join(parts[1..])
  }

  function SweepAll(parts: seq<string>): (swept: seq<string>)
    ensures |swept| == |parts| && forall i | 0 <= i < |parts| :: swept[i] == Sweep(FULL, parts[i])
  {
    seq(|parts|, i requires 0 <= i < |parts| => Sweep(FULL, parts[i]))
  }

  function PathSweep(s: string): string {
    Join(SweepAll(Split(s)))
  }

  predicate NoSlashIn(s: string) {
    forall i | 0 <= i < |s| :: s[i] != '/'
  }

  lemma {:induction false} SplitPartsHaveNoSlash(s: string)
    ensures forall p | p in Split(s) :: NoSlashIn(p)
    decreases |s|
  {
    if s != "" {
      SplitPartsHaveNoSlash(s[1..]);
      var rest := Split(s[1..]);
      assert forall p | p in rest :: NoSlashIn(p);
      assert rest[0] in rest;
      assert forall p | p in rest[1..] :: p in rest;
    }
  }

  lemma {:induction false} SplitThenJoin(s: string)
    ensures Join(Split(s)) == s
    decreases |s|
  {
    if s != "" {
      SplitThenJoin(s[1..]);
      var rest := Split(s[1..]);
      if s[0] == '/' {
        assert ([""] + rest)[1..] == rest;
        assert "" + "/" + Join(rest) == [s[0]] + s[1..];
      } else {
        var parts := [[s[0]] + rest[0]] + rest[1..];
        assert parts[1..] == rest[1..];
        assert s == [s[0]] + s[1..];
        if |rest| > 1 {
          assert ([s[0]] + rest[0]) + "/" + Join(rest[1..]) == [s[0]] + (rest[0] + "/" + Join(rest[1..]));
        }
      }
      assert s == [s[0]] + s[1..];
    }
  }

  lemma {:induction false} SplitOfPart(p: string, rest: string)
    requires NoSlashIn(p)
    ensures Split(p + "/" + rest) == [p] + Split(rest)
    ensures Split(p) == [p]
    decreases |p|
  {
    var all := p + "/" + rest;
    if p == "" {
      assert all[1..] == rest;
    } else {
      assert all[1..] == p[1..] + "/" + rest;
      SplitOfPart(p[1..], rest);
      assert [p[0]] + p[1..] == p;
      assert ([p[1..]] + Split(rest))[1..] == Split(rest);
    }
  }

  lemma {:induction false} JoinThenSplit(parts: seq<string>)
    requires parts != [] && forall p | p in parts :: NoSlashIn(p)
    ensures Split(Join(parts)) == parts
    decreases |parts|
  {
    assert parts[0] in parts;
    if |parts| == 1 {
      SplitOfPart(parts[0], "");
    } else {
      assert forall p | p in parts[1..] :: p in parts;
      JoinThenSplit(parts[1..]);
      SplitOfPart(parts[0], Join(parts[1..]));
    }
  }

  lemma {:induction false} SweepAddsNoSlash(cls: char -> bool, s: string)
    requires NoSlashIn(s)
    ensures NoSlashIn(Sweep(cls, s))
    decreases |s|
  {
    if s != "" {
      var r := RunLen(cls, s);
      SweepAddsNoSlash(cls, s[if r == 0 then 1 else r..]);
    }
  }

  /**
   The path sweep keeps the route's shape: the number and order of separators
   are those of the text, and each segment is swept on its own. A segment
   without a long run is unchanged, and no segment keeps one.
   */
  lemma PathSweepKeepsTheRoute(s: string)
    ensures Split(PathSweep(s)) == SweepAll(Split(s))
    ensures forall i | 0 <= i < |Split(s)| ::
              && NoLongRun(FULL, Split(PathSweep(s))[i])
              && (NoLongRun(FULL, Split(s)[i]) ==> Split(PathSweep(s))[i] == Split(s)[i])
  {
    var parts := Split(s);
    SplitPartsHaveNoSlash(s);
    forall p | p in SweepAll(parts) ensures NoSlashIn(p) {
      var i :| 0 <= i < |parts| && SweepAll(parts)[i] == p;
      assert parts[i] in parts;
      SweepAddsNoSlash(FULL, parts[i]);
    }
    JoinThenSplit(SweepAll(parts));
    forall i | 0 <= i < |parts|
      ensures NoLongRun(FULL, Sweep(FULL, parts[i]))
      ensures NoLongRun(FULL, parts[i]) ==> Sweep(FULL, parts[i]) == parts[i]
    {
      SweptHasNoLongRun(FULL, parts[i]);
      if NoLongRun(FULL, parts[i]) { NothingToSweep(FULL, parts[i]); }
    }
  }

  lemma {:induction false} ClassesAgreeWithoutSlash(s: string)
    requires NoSlashIn(s)
    ensures RunLen(FULL, s) == RunLen(NO_SLASH, s) && Sweep(FULL, s) == Sweep(NO_SLASH, s)
    decreases |s|
  {
    if s != "" {
      ClassesAgreeWithoutSlash(s[1..]);
      var r := RunLen(FULL, s);
      if r > 0 { ClassesAgreeWithoutSlash(s[r..]); }
    }
  }

  lemma {:induction false} RunLenStops(cls: char -> bool, a: string, b: string)
    requires b != "" ==> !cls(b[0])
    ensures RunLen(cls, a + b) == RunLen(cls, a)
    decreases |a|
  {
    if a == "" {
      assert a + b == b;
    } else {
      assert (a + b)[1..] == a[1..] + b;
      RunLenStops(cls, a[1..], b);
    }
  }

  /** A character outside the class splits a sweep in two. */
  lemma {:induction false} SweepBreaks(cls: char -> bool, a: string, b: string)
    requires b != "" && !cls(b[0])
    ensures Sweep(cls, a + b) == Sweep(cls, a) + Sweep(cls, b)
    decreases |a|
  {
    var all := a + b;
    if a == "" {
      assert all == b;
    } else {
      var r := RunLen(cls, a);
      var k := if r == 0 then 1 else r;
      RunLenStops(cls, a, b);
      assert all[k..] == a[k..] + b;
      assert all[..k] == a[..k] && all[0] == a[0];
      SweepBreaks(cls, a[k..], b);
      var first := if r == 0 then [a[0]] else if r >= FLOOR then SECRET_VALUE else a[..r];
      Regroup(first, Sweep(cls, a[k..]), Sweep(cls, b));
    }
  }

  /** A slash is outside the narrower class: what is before it and after it are swept apart. */
  lemma SlashParts(p: string, rest: string)
    ensures Sweep(NO_SLASH, p + "/" + rest) == Sweep(NO_SLASH, p) + "/" + Sweep(NO_SLASH, rest)
  {
    var tail := "/" + rest;
    assert p + "/" + rest == p + tail;
    SweepBreaks(NO_SLASH, p, tail);
    assert tail[1..] == rest;
    assert Sweep(NO_SLASH, tail) == "/" + Sweep(NO_SLASH, rest);
    Regroup(Sweep(NO_SLASH, p), "/", Sweep(NO_SLASH, rest));
  }

  lemma SweepAllCons(parts: seq<string>)
    requires |parts| > 1 && NoSlashIn(parts[0])
    ensures Join(SweepAll(parts)) == Sweep(NO_SLASH, parts[0]) + "/" + Join(SweepAll(parts[1..]))
  {
    ClassesAgreeWithoutSlash(parts[0]);
    assert SweepAll(parts)[1..] == SweepAll(parts[1..]);
  }

  lemma {:induction false} JoinedSweep(parts: seq<string>)
    requires parts != [] && forall p | p in parts :: NoSlashIn(p)
    ensures Join(SweepAll(parts)) == Sweep(NO_SLASH, Join(parts))
    decreases |parts|
  {
    assert parts[0] in parts;
    if |parts| == 1 {
      ClassesAgreeWithoutSlash(parts[0]);
    } else {
      assert forall p | p in parts[1..] :: p in parts;
      JoinedSweep(parts[1..]);
      SweepAllCons(parts);
      SlashParts(parts[0], Join(parts[1..]));
    }
  }

  /**
   The per-segment sweep is the whole-string sweep with `/` deleted from the
   class, so it blanks only positions the whole-string sweep would blank.
   */
  lemma PathSweepIsTheNarrowerSweep(s: string)
    ensures PathSweep(s) == Sweep(NO_SLASH, s) == Erased(NO_SLASH, s, 0)
    ensures forall i: nat | i < |s| && Blanked(NO_SLASH, s, i) :: Blanked(FULL, s, i)
  {
    SplitPartsHaveNoSlash(s);
    SplitThenJoin(s);
    JoinedSweep(Split(s));
    assert s[0..] == s;
    SweepIsErased(NO_SLASH, s, 0);
    forall i: nat | i < |s| && Blanked(NO_SLASH, s, i) ensures Blanked(FULL, s, i) {
      var a :| 0 <= a <= i && i < a + FLOOR && Window(NO_SLASH, s, a);
      assert Window(FULL, s, a);
    }
  }

  /** Cutting a text exposes no new run: a window of the cut is a window of the text. */
  lemma CutHasNoLongRun(cls: char -> bool, s: string, n: nat)
    requires NoLongRun(cls, s) && n <= |s|
    ensures NoLongRun(cls, s[..n])
  {
    forall a | 0 <= a < n && Window(cls, s[..n], a) ensures Window(cls, s, a) {
    }
  }

  /** No run of the narrower class in a text is no run of the full class in any of its segments. */
  lemma {:induction false} SegmentsHaveNoLongRun(s: string)
    requires NoLongRun(NO_SLASH, s)
    ensures forall p | p in Split(s) :: NoLongRun(FULL, p)
    decreases |Split(s)|
  {
    SplitPartsHaveNoSlash(s);
    forall p | p in Split(s) ensures NoLongRun(FULL, p) {
      PathSweepIsTheNarrowerSweep(s);
      NothingToSweep(NO_SLASH, s);
      PathSweepKeepsTheRoute(s);
      var i :| 0 <= i < |Split(s)| && Split(s)[i] == p;
      assert NoLongRun(FULL, Split(PathSweep(s))[i]);
    }
  }
}
