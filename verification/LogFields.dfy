/** Which log fields are hidden, and which texts are printed as they are. */
module LogFields {
  import opened Decimals
  import opened LeadingRuns
  import opened EntropySweep
  import opened BearerSweep
  import opened Credentials
  import opened LogRedactor

  // Hidden by name

  predicate StandsAt(key: string, part: string, i: nat) {
    i + |part| <= |key| && key[i..i + |part|] == part
  }

  predicate Has(key: string, part: string) {
    exists i: nat | i <= |key| :: StandsAt(key, part, i)
  }

  predicate NamesRawText(key: string) {
    Has(key, "question") || Has(key, "message") || Has(key, "content") || Has(key, "chunk") || Has(key, "context")
  }

  predicate NamesASecret(key: string) {
    || Has(key, "authorization") || Has(key, "token") || Has(key, "api_key") || Has(key, "apikey") || Has(key, "secret")
    || Has(key, "password") || Has(key, "passwd") || Has(key, "private_key") || Has(key, "cookie") || Has(key, "email")
  }

  lemma HasIsContains(key: string, part: string)
    ensures Contains(key, part) <==> Has(key, part)
  {
    if i :| 0 <= i <= |key| && part <= key[i..] {
      assert key[i..][..|part|] == key[i..i + |part|];
      assert StandsAt(key, part, i);
    }
    if i: nat :| i <= |key| && StandsAt(key, part, i) {
      assert key[i..][..|part|] == part;
    }
  }

  lemma SliceOfSlice(s: string, i: nat, n: nat, a: nat, b: nat)
    requires a <= b <= n && i + n <= |s|
    ensures s[i..i + n][a..b] == s[i + a..i + b]
  {
    var inner, outer := s[i..i + n][a..b], s[i + a..i + b];
    assert forall k | 0 <= k < b - a :: inner[k] == s[i + a + k] == outer[k];
  }

  /** A name that holds a longer part holds what it begins or ends with. */
  lemma HasLess(key: string, before: string, part: string, after: string)
    requires Has(key, before + part + after)
    ensures Has(key, part)
  {
    var all := before + part + after;
    var i: nat :| i <= |key| && StandsAt(key, all, i);
    var j := i + |before|;
    assert all == before + (part + after);
    SliceOfSlice(key, i, |all|, |before|, |before| + |part|);
    assert all[|before|..|before| + |part|] == part;
    assert StandsAt(key, part, j);
  }

  lemma RawTextNames(key: string)
    ensures ContainsAny(key, RAW_TEXT_KEYS) <==> NamesRawText(key)
  {
    forall i | 0 <= i < |RAW_TEXT_KEYS| ensures Contains(key, RAW_TEXT_KEYS[i]) <==> Has(key, RAW_TEXT_KEYS[i]) {
      HasIsContains(key, RAW_TEXT_KEYS[i]);
    }
    if Has(key, "chunk_text") { assert "" + "chunk" + "_text" == "chunk_text"; HasLess(key, "", "chunk", "_text"); }
    if Has(key, "retrieved_chunk") {
      assert "retrieved_" + "chunk" + "" == "retrieved_chunk";
      HasLess(key, "retrieved_", "chunk", "");
    }
    if Has(key, "retrieved_chunks") {
      assert "retrieved_" + "chunk" + "s" == "retrieved_chunks";
      HasLess(key, "retrieved_", "chunk", "s");
    }
    assert RAW_TEXT_KEYS[0] == "question" && RAW_TEXT_KEYS[1] == "message" && RAW_TEXT_KEYS[2] == "content";
    assert RAW_TEXT_KEYS[3] == "chunk" && RAW_TEXT_KEYS[7] == "context";
  }

  lemma SecretNames(key: string)
    ensures ContainsAny(key, SECRET_KEY_PARTS) <==> NamesASecret(key)
  {
    forall i | 0 <= i < |SECRET_KEY_PARTS| ensures Contains(key, SECRET_KEY_PARTS[i]) <==> Has(key, SECRET_KEY_PARTS[i]) {
      HasIsContains(key, SECRET_KEY_PARTS[i]);
    }
    assert SECRET_KEY_PARTS[0] == "authorization" && SECRET_KEY_PARTS[1] == "token" && SECRET_KEY_PARTS[2] == "api_key";
    assert SECRET_KEY_PARTS[3] == "apikey" && SECRET_KEY_PARTS[4] == "secret" && SECRET_KEY_PARTS[5] == "password";
    assert SECRET_KEY_PARTS[6] == "passwd" && SECRET_KEY_PARTS[7] == "private_key" && SECRET_KEY_PARTS[8] == "cookie";
    assert SECRET_KEY_PARTS[9] == "email";
  }

  /** The rule for a text under a name that hides nothing, by the whole name. */
  function RuleByName(key: string): Rule {
    if key == "request_id" || key == "index_version" || key == "index_versions" || key == "source_version_hash" then OpaqueId
    else if key == "model" || key == "index_embedding_model" || key == "configured_embedding_model" then ModelId
    else if key == "path" then Path
    else Ordinary
  }

  /** An item is redacted under the name of its list, an entry under its own. */
  predicate EachItem(lower: string -> string, key: string, items: seq<Value>, out: seq<Value>) {
    |out| == |items| && forall i | 0 <= i < |items| :: out[i] == RedactValue(lower, key, items[i])
  }

  predicate EachEntry(lower: string -> string, entries: seq<Entry>, out: seq<Entry>) {
    && |out| == |entries|
    && forall i | 0 <= i < |entries| ::
         out[i] == Entry(entries[i].key, RedactValue(lower, entries[i].key, entries[i].value))
  }

  predicate Shown(lower: string -> string, key: string, v: Value, out: Value) {
    match v
    case Str(text) => out == Str(RedactString(RuleByName(lower(key)), text))
    case List(items) => out.List? && EachItem(lower, key, items, out.items)
    case Mapping(entries) => out.Mapping? && EachEntry(lower, entries, out.entries)
    case Other(_) => out == v
  }

  lemma ShownWhenNotHidden(lower: string -> string, key: string, v: Value)
    requires !ContainsAny(lower(key), RAW_TEXT_KEYS) && !ContainsAny(lower(key), SECRET_KEY_PARTS)
    ensures Shown(lower, key, v, RedactValue(lower, key, v))
  {
  }

  /**
   A field is hidden, whatever is in it and however deep, exactly when its name
   holds one of these words in any case; any other is shown, a text by its rule.
   */
  lemma HiddenExactlyByName(lower: string -> string, key: string, v: Value)
    ensures var k, out := lower(key), RedactValue(lower, key, v);
      if NamesRawText(k) then out == Str("[REDACTED_TEXT]")
      else if NamesASecret(k) then out == Str("[REDACTED]")
      else Shown(lower, key, v, out)
  {
    RawTextNames(lower(key));
    SecretNames(lower(key));
    if !NamesRawText(lower(key)) && !NamesASecret(lower(key)) {
      ShownWhenNotHidden(lower, key, v);
    }
  }

  // Printed as it is

  /** A letter, a digit, or one of `+ / = _ -`. */
  predicate IsRunChar(c: char) {
    'a' <= c <= 'z' || 'A' <= c <= 'Z' || '0' <= c <= '9' || c in {'+', '/', '=', '_', '-'}
  }

  predicate RunsFrom(s: string, a: nat) {
    a + 32 <= |s| && forall i | a <= i < a + 32 :: IsRunChar(s[i])
  }

  predicate HoldsLongRun(s: string) {
    exists a: nat | a < |s| :: RunsFrom(s, a)
  }

  lemma LongRunsAreWindows(s: string)
    ensures NoLongRun(FULL, s) <==> !HoldsLongRun(s)
  {
    forall a: nat | a < |s| ensures Window(FULL, s, a) <==> RunsFrom(s, a) {
      assert forall i | 0 <= i < |s| :: FULL(s[i]) <==> IsRunChar(s[i]);
    }
  }

  /** An ordinary text of up to 8192 characters prints no run of 32, and one with neither such a run nor a credential is printed as it is. */
  lemma OrdinaryTexts(s: string)
    requires |s| <= 8192
    ensures !HoldsLongRun(RedactString(Ordinary, s))
    ensures !HoldsCredential(s) && !HoldsLongRun(s) ==> RedactString(Ordinary, s) == s
  {
    NoSecretShapeSurvives(s);
    LongRunsAreWindows(RedactString(Ordinary, s));
    if !HoldsCredential(s) && !HoldsLongRun(s) {
      ClearHoldsNone(s);
      NothingToReplace(s);
      LongRunsAreWindows(s);
      TheSweepIsItsSimpleForm(s);
      NothingToSweep(FULL, s);
    }
  }

  function Chars(n: nat): string {
    "[REDACTED]\U{2026}<" + Decimal(n) + " chars>"
  }

  function Segments(n: nat): string {
    "/[REDACTED]\U{2026}<" + Decimal(n) + " segments>"
  }

  lemma MarkersSay(n: nat)
    ensures LengthMarker(n) == Chars(n) && SegmentMarker(n) == Segments(n)
  {
    assert SECRET_VALUE + "\U{2026}<" == "[REDACTED]\U{2026}<";
    assert "/" + SECRET_VALUE + "\U{2026}<" == "/[REDACTED]\U{2026}<";
  }

  lemma CapsSay(rule: Rule, s: string)
    ensures TooLong(rule, s) <==> |s| > 8192 || (rule == Path && CountOf(s, '/') > 64)
    ensures CapMarker(rule, s) ==
      if rule == Path && CountOf(s, '/') > 64 then SegmentMarker(CountOf(s, '/')) else LengthMarker(|s|)
    ensures TooLong(rule, s) ==> RedactString(rule, s) == CapMarker(rule, s)
  {
  }

  /** A path of more than 64 segments prints their number and nothing else. */
  lemma WindingPaths(s: string)
    requires CountOf(s, '/') > 64
    ensures RedactString(Path, s) == Segments(CountOf(s, '/'))
  {
    CapsSay(Path, s);
    MarkersSay(CountOf(s, '/'));
  }

  /** Any other text of more than 8192 characters prints its length and nothing else. */
  lemma LongTexts(rule: Rule, s: string)
    requires |s| > 8192 && !(rule == Path && CountOf(s, '/') > 64)
    ensures RedactString(rule, s) == Chars(|s|)
  {
    CapsSay(rule, s);
    MarkersSay(|s|);
  }

  lemma NothingSwept(rule: Rule, s: string)
    requires |s| <= 8192 && (rule == Path ==> CountOf(s, '/') <= 64) && !HoldsCredential(s)
    ensures RedactString(rule, s) == RedactSwept(rule, s)
  {
    ClearHoldsNone(s);
    NothingToReplace(s);
  }

  lemma CutsSay(s: string)
    ensures Cut(s, 160) == if |s| <= 160 then s else s[..160] + "\U{2026}<truncated>"
  {
  }

  /** Identifiers without a credential are printed as they are up to their length; a longer correlation id is cut, a longer model name counted. */
  lemma Identifiers(s: string)
    requires |s| <= 8192 && !HoldsCredential(s)
    ensures RedactString(OpaqueId, s) == if |s| <= 160 then s else s[..160] + "\U{2026}<truncated>"
    ensures RedactString(ModelId, s) == if |s| <= 64 then s else Chars(|s|)
  {
    NothingSwept(OpaqueId, s);
    NothingSwept(ModelId, s);
    CutsSay(s);
    MarkersSay(|s|);
  }

  /** A path with no credential and no long run in any segment keeps its route, cut after 160 characters. */
  lemma Paths(s: string)
    requires |s| <= 8192 && CountOf(s, '/') <= 64 && !HoldsCredential(s) && forall p | p in Split(s) :: !HoldsLongRun(p)
    ensures RedactString(Path, s) == if |s| <= 160 then s else s[..160] + "\U{2026}<truncated>"
  {
    NothingSwept(Path, s);
    RouteIsKept(s);
    KeptPathIsCut(s);
  }

  lemma KeptPathIsCut(s: string)
    requires PathSweep(s) == s
    ensures RedactSwept(Path, s) == if |s| <= 160 then s else s[..160] + "\U{2026}<truncated>"
  {
    CutsSay(s);
  }

  lemma RouteIsKept(s: string)
    requires forall p | p in Split(s) :: !HoldsLongRun(p)
    ensures PathSweep(s) == s
  {
    forall i | 0 <= i < |Split(s)| ensures SweepAll(Split(s))[i] == Split(s)[i] {
      assert Split(s)[i] in Split(s);
      LongRunsAreWindows(Split(s)[i]);
      NothingToSweep(FULL, Split(s)[i]);
    }
    assert SweepAll(Split(s)) == Split(s);
    SplitThenJoin(s);
  }

  // Counting segments

  function Slashes(s: string): set<nat> {
    set i: nat | i < |s| && s[i] == '/' :: i
  }

  lemma {:induction false} CountsApart(a: string, b: string)
    ensures CountOf(a + b, '/') == CountOf(a, '/') + CountOf(b, '/')
    decreases |a|
  {
    if a == "" {
      assert a + b == b;
    } else {
      CountsApart(a[1..], b);
      assert (a + b)[0] == a[0] && (a + b)[1..] == a[1..] + b;
    }
  }

  lemma SlashesOfOneMore(s: string)
    requires s != ""
    ensures var n := |s| - 1; Slashes(s) == Slashes(s[..n]) + if s[n] == '/' then {n} else {}
  {
  }

  /** The number shown for a path is the number of its slashes. */
  lemma {:induction false} CountIsTheSlashes(s: string)
    ensures CountOf(s, '/') == |Slashes(s)|
    decreases |s|
  {
    if s != "" {
      var n := |s| - 1;
      CountIsTheSlashes(s[..n]);
      CountsApart(s[..n], [s[n]]);
      assert s[..n] + [s[n]] == s && [s[n]][1..] == "";
      SlashesOfOneMore(s);
    }
  }
}
