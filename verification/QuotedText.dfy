/**
 Text made by copying stretches of another and putting markers between them: if
 no credential was in the one, none is in the other.
 */
module QuotedText {
  import opened LeadingRuns
  import opened BearerSweep
  import opened EntropySweep

  /** What a marker begins with: no part of a credential. */
  predicate Blocks(c: char) {
    c == '[' || c == '\U{2026}'
  }

  /** `out` begins with the first `k` characters of `t`, and then ends or meets a marker. */
  predicate FrontOf(out: string, t: string, k: nat) {
    k <= |out| && k <= |t| && (forall i | 0 <= i < k :: out[i] == t[i]) && (k < |out| ==> Blocks(out[k]))
  }

  predicate NeverStarts(c: char) {
    !SameLetter(c, 'b')
  }

  /** Position `j` of `out` starts no credential, or what follows is a front of some rest of `t`. */
  ghost predicate QuotedAt(out: string, t: string, j: nat)
    requires j < |out|
  {
    NeverStarts(out[j]) || exists p: nat, k: nat | p <= |t| && k <= |t| :: FrontOf(out[j..], t[p..], k)
  }

  ghost predicate Quotes(out: string, t: string) {
    forall j: nat | j < |out| :: QuotedAt(out, t, j)
  }

  ghost predicate HasFront(out: string, t: string) {
    exists k: nat | k <= |t| :: FrontOf(out, t, k)
  }

  /** A credential has no marker in it, so one at the front of `out` is one at the front of `t`. */
  lemma CredentialIsCopied(out: string, t: string, k: nat)
    requires FrontOf(out, t, k) && BearerLen(out) > 0
    ensures BearerLen(t) > 0
  {
    var spaces := RunLen(IsSpace, out[6..]);
    assert forall i | 0 <= i < spaces :: out[6..][i] == out[6 + i];
    assert out[6 + spaces..][0] == out[6 + spaces] && IsTokenChar(out[6 + spaces]);
    assert k > 6 + spaces by {
      assert forall i | 0 <= i < 6 :: SameLetter(out[i], BEARER[i]) && !Blocks(out[i]);
      assert forall i | 6 <= i < 6 + spaces :: out[i] == out[6..][i - 6] && !Blocks(out[i]);
      assert !Blocks(out[6 + spaces]);
    }
    assert StartsBearer(t);
    assert forall i | 0 <= i < spaces + 1 :: t[6..][i] == out[6..][i];
    RunLenIs(IsSpace, t[6..], spaces);
    assert t[6 + spaces..][0] == out[6 + spaces];
  }

  lemma QuotedIsClear(out: string, t: string)
    requires NoBearer(t) && Quotes(out, t)
    ensures NoBearer(out)
  {
    forall j | 0 <= j < |out| ensures BearerLen(out[j..]) == 0 {
      assert QuotedAt(out, t, j);
      if NeverStarts(out[j]) {
        assert !StartsBearer(out[j..]);
      } else {
        var p: nat, k: nat :| p <= |t| && k <= |t| && FrontOf(out[j..], t[p..], k);
        if BearerLen(out[j..]) > 0 {
          CredentialIsCopied(out[j..], t[p..], k);
        }
      }
    }
  }

  lemma NoStartIsClear(out: string)
    requires forall c | c in out :: NeverStarts(c)
    ensures NoBearer(out)
  {
    forall j | 0 <= j < |out| ensures BearerLen(out[j..]) == 0 {
      assert out[j..][0] in out;
    }
  }

  /** What is quoted from a rest of `t` is quoted from `t`. */
  lemma QuotedFromRest(before: string, rest: string, t: string, r: nat, j: nat)
    requires r <= |t| && Quotes(rest, t[r..]) && |before| <= j < |before + rest|
    ensures QuotedAt(before + rest, t, j)
  {
    var i := j - |before|;
    assert QuotedAt(rest, t[r..], i);
    assert (before + rest)[j..] == rest[i..] && (before + rest)[j] == rest[i];
    if !NeverStarts(rest[i]) {
      var p: nat, k: nat :| p <= |t[r..]| && k <= |t[r..]| && FrontOf(rest[i..], t[r..][p..], k);
      assert t[r..][p..] == t[r + p..];
      assert FrontOf((before + rest)[j..], t[r + p..], k);
    }
  }

  lemma FrontGrows(t: string, r: nat, j: nat, rest: string, k: nat)
    requires j <= r <= |t| && k <= |t| - r && FrontOf(rest, t[r..], k)
    ensures FrontOf((t[..r] + rest)[j..], t[j..], r - j + k)
  {
    var out := (t[..r] + rest)[j..];
    assert out == t[j..r] + rest;
    forall i | 0 <= i < r - j + k ensures out[i] == t[j..][i] {
      if i >= r - j {
        assert out[i] == rest[i - (r - j)] == t[r..][i - (r - j)];
      }
    }
  }

  /** Copying `r` characters and going on with a quote of the rest. */
  lemma CopyOn(t: string, r: nat, rest: string)
    requires r <= |t| && Quotes(rest, t[r..]) && HasFront(rest, t[r..])
    ensures Quotes(t[..r] + rest, t) && HasFront(t[..r] + rest, t)
  {
    var out := t[..r] + rest;
    var k: nat :| k <= |t[r..]| && FrontOf(rest, t[r..], k);
    forall j: nat | j < |out| ensures QuotedAt(out, t, j) {
      if j < r {
        FrontGrows(t, r, j, rest, k);
      } else {
        QuotedFromRest(t[..r], rest, t, r, j);
      }
    }
    FrontGrows(t, r, 0, rest, k);
    assert out[0..] == out && t[0..] == t;
  }

  predicate IsMark(mark: string) {
    mark != "" && Blocks(mark[0]) && forall c | c in mark :: NeverStarts(c)
  }

  /** Putting a marker in place of `r` characters and going on with a quote of the rest. */
  lemma MarkOn(t: string, r: nat, mark: string, rest: string)
    requires r <= |t| && IsMark(mark) && Quotes(rest, t[r..])
    ensures Quotes(mark + rest, t) && HasFront(mark + rest, t)
  {
    forall j: nat | j < |mark + rest| ensures QuotedAt(mark + rest, t, j) {
      if j < |mark| {
        assert (mark + rest)[j] in mark;
      } else {
        QuotedFromRest(mark, rest, t, r, j);
      }
    }
    assert FrontOf(mark + rest, t, 0);
  }

  /** The entropy sweep, of any class, quotes its text. */
  lemma {:induction false} SweepQuotes(cls: char -> bool, t: string)
    ensures Quotes(Sweep(cls, t), t) && HasFront(Sweep(cls, t), t)
    decreases |t|
  {
    if t == "" {
      assert FrontOf("", t, 0);
    } else if RunLen(cls, t) >= FLOOR {
      var r := RunLen(cls, t);
      SweepQuotes(cls, t[r..]);
      assert IsMark(SECRET_VALUE);
      MarkOn(t, r, SECRET_VALUE, Sweep(cls, t[r..]));
    } else {
      var k := FrontIsCopied(cls, t);
      SweepQuotes(cls, t[k..]);
      CopyOn(t, k, Sweep(cls, t[k..]));
    }
  }

  lemma SweptIsClear(cls: char -> bool, t: string)
    requires NoBearer(t)
    ensures NoBearer(Sweep(cls, t))
  {
    SweepQuotes(cls, t);
    QuotedIsClear(Sweep(cls, t), t);
  }

  /** So does a cut that ends in a marker. */
  lemma CutIsClear(t: string, limit: nat, mark: string)
    requires NoBearer(t) && limit <= |t| && IsMark(mark)
    ensures NoBearer(t[..limit] + mark)
  {
    assert Quotes(mark, t[limit..]) by {
      forall j: nat | j < |mark| ensures QuotedAt(mark, t[limit..], j) { assert mark[j] in mark; }
    }
    assert FrontOf(mark, t[limit..], 0);
    CopyOn(t, limit, mark);
    QuotedIsClear(t[..limit] + mark, t);
  }
}
