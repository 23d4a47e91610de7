/** What a `Bearer` credential is, told without the matcher, and what the sweep makes of a text that has some. */
module Credentials {
  import opened LeadingRuns
  import opened BearerSweep

  // The shape

  /** Six letters that read "bearer" in any mixture of cases. */
  predicate IsBearerWord(w: string) {
    |w| == 6 && forall i | 0 <= i < 6 :: w[i] == "bearer"[i] || w[i] == "BEARER"[i]
  }

  /** What Python's `\s` takes on text. */
  predicate IsWhite(c: char) {
    c in {'\t', '\n', '\U{0B}', '\U{0C}', '\r', '\U{1C}', '\U{1D}', '\U{1E}', '\U{1F}', ' ', '\U{85}', '\U{A0}',
          '\U{1680}', '\U{2000}', '\U{2001}', '\U{2002}', '\U{2003}', '\U{2004}', '\U{2005}', '\U{2006}', '\U{2007}',
          '\U{2008}', '\U{2009}', '\U{200A}', '\U{2028}', '\U{2029}', '\U{202F}', '\U{205F}', '\U{3000}'}
  }

  /** A letter, a digit or one of seven marks; without regard to case four letters outside ASCII are letters too. */
  predicate IsTokenPart(c: char) {
    || 'a' <= c <= 'z' || 'A' <= c <= 'Z' || '0' <= c <= '9'
    || c in {'.', '_', '~', '+', '/', '=', '-'} || c in {'\U{130}', '\U{131}', '\U{17F}', '\U{212A}'}
  }

  /** The word, then white space up to `m`, then a token. */
  predicate SplitsAt(w: string, m: nat) {
    && 7 <= m < |w| && IsBearerWord(w[..6])
    && (forall i | 6 <= i < m :: IsWhite(w[i])) && (forall i | m <= i < |w| :: IsTokenPart(w[i]))
  }

  predicate IsCredential(w: string) {
    exists m: nat | m < |w| :: SplitsAt(w, m)
  }

  predicate StartsCredential(s: string) {
    exists n: nat | n <= |s| :: IsCredential(s[..n])
  }

  predicate HoldsCredential(s: string) {
    exists i: nat, j: nat | i <= j <= |s| :: IsCredential(s[i..j])
  }

  // The matcher finds exactly that

  lemma SameClasses(c: char)
    ensures IsSpace(c) <==> IsWhite(c)
    ensures IsTokenChar(c) <==> IsTokenPart(c)
    ensures !(IsWhite(c) && IsTokenPart(c))
  {
  }

  lemma SameWord(s: string)
    requires |s| >= 6
    ensures StartsBearer(s) <==> IsBearerWord(s[..6])
  {
    assert forall i | 0 <= i < 6 :: SameLetter(s[i], BEARER[i]) <==> (s[i] == "bearer"[i] || s[i] == "BEARER"[i]);
  }

  /** Any credential at the front is found, white space and all. */
  lemma CredentialIsMatched(s: string, n: nat, m: nat)
    requires n <= |s| && SplitsAt(s[..n], m)
    ensures BearerLen(s) >= n
  {
    var w := s[..n];
    assert forall i | 0 <= i < n :: w[i] == s[i];
    assert w[..6] == s[..6];
    SameWord(s);
    forall i | 6 <= i < n ensures if i < m then IsSpace(s[i]) else IsTokenChar(s[i]) && !IsSpace(s[i]) { SameClasses(s[i]); }
    RunLenIs(IsSpace, s[6..], m - 6);
    assert s[6 + (m - 6)..] == s[m..];
    TakesThemAll(IsTokenChar, s[m..], n - m);
  }

  lemma TakesThemAll(cls: char -> bool, s: string, n: nat)
    requires n <= |s| && forall i | 0 <= i < n :: cls(s[i])
    ensures RunLen(cls, s) >= n
  {
  }

  /** What the matcher takes is a credential, and the longest. */
  lemma MatchIsCredential(s: string)
    requires BearerLen(s) > 0
    ensures IsCredential(s[..BearerLen(s)])
    ensures BearerLen(s) < |s| ==> !IsTokenPart(s[BearerLen(s)])
  {
    var n, m := BearerLen(s), 6 + RunLen(IsSpace, s[6..]);
    var w := s[..n];
    assert w[..6] == s[..6];
    SameWord(s);
    forall i | 6 <= i < m ensures IsWhite(w[i]) {
      SameClasses(w[i]);
      assert w[i] == s[6..][i - 6];
    }
    forall i | m <= i < n ensures IsTokenPart(w[i]) {
      SameClasses(w[i]);
      assert w[i] == s[m..][i - m];
    }
    assert SplitsAt(w, m);
    if n < |s| {
      SameClasses(s[n]);
      assert s[m..][n - m] == s[n];
    }
  }

  lemma MatchesExactly(s: string)
    ensures BearerLen(s) > 0 <==> StartsCredential(s)
  {
    if BearerLen(s) > 0 { MatchIsCredential(s); }
    if n: nat :| n <= |s| && IsCredential(s[..n]) {
      var m: nat :| m < |s[..n]| && SplitsAt(s[..n], m);
      CredentialIsMatched(s, n, m);
    }
  }

  /** A text the matcher finds nothing in holds no credential. */
  lemma ClearHoldsNone(s: string)
    ensures NoBearer(s) <==> !HoldsCredential(s)
  {
    forall i: nat, j: nat | i <= j <= |s| && IsCredential(s[i..j]) ensures !NoBearer(s) {
      assert s[i..][..j - i] == s[i..j] && i < |s|;
      MatchesExactly(s[i..]);
    }
    forall i: nat | i < |s| && BearerLen(s[i..]) > 0 ensures HoldsCredential(s) {
      MatchIsCredential(s[i..]);
      assert s[i..i + BearerLen(s[i..])] == s[i..][..BearerLen(s[i..])];
    }
  }

  /** No credential survives the sweep, in any case, with any white space, with any token. */
  lemma NoneSurvives(s: string)
    ensures !HoldsCredential(BearerSub(s))
  {
    NoCredentialSurvives(s);
    ClearHoldsNone(BearerSub(s));
  }

  // What the sweep does to the rest

  /** A text in pieces: single characters to keep, and credentials to replace. */
  datatype Part = Kept(c: char) | Found(text: string)

  function Source(parts: seq<Part>): string {
    if parts == [] then "" else (if parts[0].Kept? then [parts[0].c] else parts[0].text) + Source(parts[1..])
  }

  function Printed(parts: seq<Part>): string {
    if parts == [] then "" else (if parts[0].Kept? then [parts[0].c] else "Bearer [REDACTED]") + Printed(parts[1..])
  }

  /** A kept character starts no credential, and one that is found is taken as far as its token goes. */
  predicate RightPart(p: Part, rest: string) {
    match p
    case Kept(c) => !StartsCredential([c] + rest)
    case Found(text) => IsCredential(text) && (rest != "" ==> !IsTokenPart(rest[0]))
  }

  predicate RightlyCut(parts: seq<Part>) {
    parts == [] || (RightPart(parts[0], Source(parts[1..])) && RightlyCut(parts[1..]))
  }

  /** `parts` says what the sweep does to `s`. */
  predicate Explains(parts: seq<Part>, s: string) {
    Source(parts) == s && Printed(parts) == BearerSub(s) && RightlyCut(parts)
  }

  lemma FoundOn(s: string, rest: seq<Part>)
    requires BearerLen(s) > 0 && Explains(rest, s[BearerLen(s)..])
    ensures Explains([Found(s[..BearerLen(s)])] + rest, s)
  {
    MatchIsCredential(s);
    var parts := [Found(s[..BearerLen(s)])] + rest;
    assert parts[1..] == rest;
    assert s == s[..BearerLen(s)] + s[BearerLen(s)..];
  }

  lemma KeptOn(s: string, rest: seq<Part>)
    requires s != "" && BearerLen(s) == 0 && Explains(rest, s[1..])
    ensures Explains([Kept(s[0])] + rest, s)
  {
    MatchesExactly(s);
    var parts := [Kept(s[0])] + rest;
    assert parts[1..] == rest;
    assert s == [s[0]] + s[1..];
  }

  /**
   From left to right every credential is replaced, as far as its token goes, by
   the same constant; every other character is kept, in order.
   */
  lemma {:induction false} ReplacesExactlyTheCredentials(s: string) returns (parts: seq<Part>)
    ensures Explains(parts, s)
    decreases |s|
  {
    if s == "" {
      parts := [];
    } else if BearerLen(s) > 0 {
      var rest := ReplacesExactlyTheCredentials(s[BearerLen(s)..]);
      FoundOn(s, rest);
      parts := [Found(s[..BearerLen(s)])] + rest;
    } else {
      var rest := ReplacesExactlyTheCredentials(s[1..]);
      KeptOn(s, rest);
      parts := [Kept(s[0])] + rest;
    }
  }
}
