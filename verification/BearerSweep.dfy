/**
 The credential sweep of the log redactor: `Bearer\s+[A-Za-z0-9._~+/=-]+`,
 ignoring case, replaced by a constant.
 */
module BearerSweep {
  import opened Collections
  import opened LeadingRuns

  const BEARER := "bearer"
  const BEARER_REPLACEMENT := "Bearer [REDACTED]"

  /** Ignoring case, no character outside ASCII equals a letter of "bearer". */
  predicate SameLetter(c: char, lower: char)
    requires 'a' <= lower <= 'z'
  {
    c == lower || (c as int) + 32 == lower as int
  }

  predicate StartsBearer(s: string) {
    |s| >= 6 && forall i | 0 <= i < 6 :: SameLetter(s[i], BEARER[i])
  }

  /** `\s` on text: Unicode white space. */
  predicate IsSpace(c: char) {
    || '\U{0009}' <= c <= '\U{000D}' || '\U{001C}' <= c <= ' '
    || c == '\U{0085}' || c == '\U{00A0}' || c == '\U{1680}'
    || '\U{2000}' <= c <= '\U{200A}' || c == '\U{2028}' || c == '\U{2029}'
    || c == '\U{202F}' || c == '\U{205F}' || c == '\U{3000}'
  }

  /** The token class; ignoring case, `A-Za-z` also takes four letters outside ASCII. */
  predicate IsTokenChar(c: char) {
    || 'A' <= c <= 'Z' || 'a' <= c <= 'z' || '0' <= c <= '9'
    || c == '.' || c == '_' || c == '~' || c == '+' || c == '/' || c == '=' || c == '-'
    || c == '\U{0130}' || c == '\U{0131}' || c == '\U{017F}' || c == '\U{212A}'
  }

  /** The length of the match at the start of `s`, 0 when there is none. Neither class meets the other, so nothing is given back. */
  function BearerLen(s: string): (n: nat)
    ensures n <= |s| && (n == 0 || n >= 8)
  {
    if !StartsBearer(s) then 0
    else
      var spaces := RunLen(IsSpace, s[6..]);
      var token := RunLen(IsTokenChar, s[6 + spaces..]);
      if spaces == 0 || token == 0 then 0 else 6 + spaces + token
  }

  function BearerSub(s: string): string
    decreases |s|
  {
    if s == "" then ""
    else if BearerLen(s) > 0 then BEARER_REPLACEMENT + BearerSub(s[BearerLen(s)..])
    else [s[0]] + BearerSub(s[1..])
  }

  /** A match of at least 8 becomes 17: the sweep grows a text by no more than that. */
  lemma {:induction false} BearerSubIsBounded(s: string)
    ensures 8 * |BearerSub(s)| <= 17 * |s|
    decreases |s|
  {
    if s != "" {
      BearerSubIsBounded(s[if BearerLen(s) > 0 then BearerLen(s) else 1..]);
    }
  }

  // No credential survives

  predicate NoBearer(s: string) {
    forall j | 0 <= j < |s| :: BearerLen(s[j..]) == 0
  }

  /** Where the first match starts. */
  function FirstBearer(s: string): (k: nat)
    ensures k <= |s|
    ensures k < |s| ==> BearerLen(s[k..]) > 0
    ensures k > 0 ==> BearerLen(s) == 0
    decreases |s|
  {
    if s == "" then 0
    else if BearerLen(s) > 0 then assert s[0..] == s; 0
    else
      var k := FirstBearer(s[1..]);
      assert s[1..][k..] == s[1 + k..];
      1 + k
  }

  lemma OneLater(s: string, k: nat)
    requires 0 < k <= |s|
    ensures s[1..][k - 1..] == s[k..] && s[..k] == [s[0]] + s[1..][..k - 1]
  {
  }

  predicate SplitAt(s: string, k: nat) {
    k <= |s| && BearerSub(s) == s[..k] + BearerSub(s[k..])
  }

  lemma SplitOneLater(s: string, k: nat)
    requires s != "" && BearerLen(s) == 0 && SplitAt(s[1..], k)
    ensures SplitAt(s, 1 + k)
  {
    OneLater(s, 1 + k);
    Regroup([s[0]], s[1..][..k], BearerSub(s[1 + k..]));
  }

  /** The swept text is the text up to its first match, and then the sweep of the rest. */
  lemma {:induction false} SplitsAtTheFirst(s: string)
    ensures SplitAt(s, FirstBearer(s))
    decreases |s|
  {
    if FirstBearer(s) == 0 {
      assert s[0..] == s && s[..0] == "";
    } else {
      SplitsAtTheFirst(s[1..]);
      SplitOneLater(s, FirstBearer(s[1..]));
    }
  }

  /** Up to the first match the text is copied; there the constant begins. */
  lemma CopiedUpToTheFirst(s: string)
    ensures var k, t := FirstBearer(s), BearerSub(s);
      && k <= |t| && t[..k] == s[..k]
      && (if k == |s| then |t| == k else BEARER_REPLACEMENT <= t[k..])
  {
    SplitsAtTheFirst(s);
    var k := FirstBearer(s);
    assert BearerSub(s)[k..] == BearerSub(s[k..]);
  }

  /** Both texts start with the word and agree up to `k`, where the text has its next match. */
  lemma FrontWithPrefix(s: string, t: string, k: nat)
    requires 6 <= k < |s| && k < |t| && (forall i | 0 <= i < k :: t[i] == s[i])
    requires StartsBearer(t) && BearerLen(s) == 0
    requires t[k] == 'B' && StartsBearer(s[k..])
    ensures BearerLen(t) == 0
  {
    assert StartsBearer(s);
    assert s[k] == s[k..][0] && SameLetter(s[k], BEARER[0]);
    var spaces := RunLen(IsSpace, s[6..]);
    assert !IsSpace(s[6..][k - 6]);
    assert forall i | 0 <= i < k - 6 :: t[6..][i] == s[6..][i];
    assert t[6..][k - 6] == 'B';
    RunLenIs(IsSpace, t[6..], spaces);
    if spaces > 0 {
      assert s[6 + spaces..][0] == s[6 + spaces];
      assert RunLen(IsTokenChar, s[6 + spaces..]) == 0;
      assert 6 + spaces < k;
      assert t[6 + spaces..][0] == s[6 + spaces];
    }
  }

  /** The swept text up to its first replacement, character by character. */
  lemma SweptFront(s: string)
    ensures var k, t := FirstBearer(s), BearerSub(s);
      && k <= |t| && (forall i | 0 <= i < k :: t[i] == s[i])
      && (if k == |s| then t == s else k < |t| && t[k] == 'B' && StartsBearer(s[k..]))
  {
    var k, t := FirstBearer(s), BearerSub(s);
    CopiedUpToTheFirst(s);
    assert forall i | 0 <= i < k :: t[..k][i] == t[i] && s[..k][i] == s[i];
    if k < |s| { assert t[k..][0] == BEARER_REPLACEMENT[0]; }
  }

  /** The word has only one "b". */
  lemma NoSecondB(t: string, k: nat)
    requires 1 <= k < 6 && k < |t| && t[k] == 'B'
    ensures !StartsBearer(t)
  {
    assert BEARER[k] != 'b';
  }

  /** If no match starts at the front of the text, none starts at the front of the swept text. */
  lemma FrontStaysClear(s: string)
    requires s != "" && BearerLen(s) == 0
    ensures BearerLen(BearerSub(s)) == 0
  {
    var k, t := FirstBearer(s), BearerSub(s);
    SweptFront(s);
    if k < |s| {
      assert k > 0 by { assert s[0..] == s; }
      if k < 6 {
        NoSecondB(t, k);
      } else if StartsBearer(t) {
        FrontWithPrefix(s, t, k);
      }
    }
  }

  lemma ReplacementIsClear(rest: string, j: nat)
    requires j < 17
    ensures BearerLen((BEARER_REPLACEMENT + rest)[j..]) == 0
  {
    var t := (BEARER_REPLACEMENT + rest)[j..];
    assert t[0] == BEARER_REPLACEMENT[j];
    if j == 0 {
      assert t[6..][0] == ' ' && t[6..][1] == '[' && t[7..][0] == '[';
      RunLenIs(IsSpace, t[6..], 1);
    } else {
      assert !SameLetter(t[0], BEARER[0]);
    }
  }

  /** The sweep leaves no `Bearer` credential anywhere in the text. */
  lemma {:induction false} NoCredentialSurvives(s: string)
    ensures NoBearer(BearerSub(s))
    decreases |s|
  {
    if s != "" {
      var t := BearerSub(s);
      var n := BearerLen(s);
      var rest := BearerSub(s[if n > 0 then n else 1..]);
      NoCredentialSurvives(s[if n > 0 then n else 1..]);
      forall j | 0 <= j < |t| ensures BearerLen(t[j..]) == 0 {
        var front := if n > 0 then 17 else 1;
        if j >= front {
          assert t[j..] == rest[j - front..];
        } else if n > 0 {
          ReplacementIsClear(rest, j);
        } else {
          assert t[0..] == t;
          FrontStaysClear(s);
        }
      }
    }
  }

  lemma {:induction false} NothingToReplace(s: string)
    requires NoBearer(s)
    ensures BearerSub(s) == s
    decreases |s|
  {
    if s != "" {
      assert s[0..] == s;
      forall j | 0 <= j < |s[1..]| ensures BearerLen(s[1..][j..]) == 0 {
        assert s[1..][j..] == s[j + 1..];
      }
      NothingToReplace(s[1..]);
    }
  }

  lemma BearerSubIsIdempotent(s: string)
    ensures BearerSub(BearerSub(s)) == BearerSub(s)
  {
    NoCredentialSurvives(s);
    NothingToReplace(BearerSub(s));
  }
}
