/**
 `redact_value`: which rule a log field gets, in which order, and what can come
 out. `lower` stands for Python's `str.lower`; every statement holds for any
 such function.
 */
module LogRedactor {
  import opened Decimals
  import opened EntropySweep
  import opened QuotedText
  import opened BearerSweep
  import opened Credentials

  const TEXT_VALUE := "[REDACTED_TEXT]"
  const TRUNCATED := "\U{2026}<truncated>"

  const RAW_TEXT_KEYS: seq<string> :=
    ["question", "message", "content", "chunk", "chunk_text", "retrieved_chunk", "retrieved_chunks", "context"]
  const SECRET_KEY_PARTS: seq<string> :=
    ["authorization", "token", "api_key", "apikey", "secret", "password", "passwd", "private_key", "cookie", "email"]

  const OPAQUE_ID_KEYS: set<string> := {"request_id", "index_version", "index_versions", "source_version_hash"}
  const MODEL_ID_KEYS: set<string> := {"model", "index_embedding_model", "configured_embedding_model"}
  const PATH_KEYS: set<string> := {"path"}

  const MAX_OPAQUE_ID: nat := 160
  const MAX_MODEL_ID: nat := 64
  const MAX_PATH: nat := 160
  const MAX_PATH_SEGMENTS: nat := 64
  const MAX_SCANNED_CHARS: nat := 8192

  /** Built from a count and nothing else. */
  function LengthMarker(length: nat): string {
    SECRET_VALUE + "\U{2026}<" + Decimal(length) + " chars>"
  }

  function SegmentMarker(segments: nat): string {
    "/" + SECRET_VALUE + "\U{2026}<" + Decimal(segments) + " segments>"
  }

  function CountOf(s: string, c: char): nat {
    if s == "" then 0 else (if s[0] == c then 1 else 0) + CountOf(s[1..], c)
  }

  predicate Contains(s: string, part: string) {
    exists i | 0 <= i <= |s| :: part <= s[i..]
  }

  predicate ContainsAny(s: string, parts: seq<string>) {
    exists i | 0 <= i < |parts| :: Contains(s, parts[i])
  }

  function Cut(s: string, limit: nat): string {
    if |s| > limit then s[..limit] + TRUNCATED else s
  }

  datatype Rule = OpaqueId | ModelId | Path | Ordinary

  function RuleOf(key: string): Rule {
    if key in OPAQUE_ID_KEYS then OpaqueId
    else if key in MODEL_ID_KEYS then ModelId
    else if key in PATH_KEYS then Path
    else Ordinary
  }

  /**
   The source tests for a path before the length cap and again after the two
   exemptions. No key is in two of the sets, so the rule does not depend on the
   order of the tests.
   */
  lemma OneRulePerKey(key: string)
    ensures RuleOf(key) == Path <==> key in PATH_KEYS
    ensures RuleOf(key) == ModelId <==> key in MODEL_ID_KEYS
  {
    assert key in PATH_KEYS ==> |key| == 4;
    assert key in MODEL_ID_KEYS ==> key[0] in {'m', 'i', 'c'};
    if key in OPAQUE_ID_KEYS {
      assert |key| in {10, 13, 14, 19};
      assert key in MODEL_ID_KEYS ==> |key| in {5, 21, 26};
    }
  }

  /** The caps that are tested before any scan. */
  predicate TooLong(rule: Rule, s: string) {
    (rule == Path && CountOf(s, '/') > MAX_PATH_SEGMENTS) || |s| > MAX_SCANNED_CHARS
  }

  function CapMarker(rule: Rule, s: string): string {
    if rule == Path && CountOf(s, '/') > MAX_PATH_SEGMENTS then SegmentMarker(CountOf(s, '/')) else LengthMarker(|s|)
  }

  /** The string arm, for a key that is neither raw text nor secret. */
  function RedactString(rule: Rule, s: string): string {
    if TooLong(rule, s) then CapMarker(rule, s) else RedactSwept(rule, BearerSub(s))
  }

  /** ...once no credential is left in it. */
  function RedactSwept(rule: Rule, redacted: string): string {
    match rule
    case OpaqueId => Cut(redacted, MAX_OPAQUE_ID)
    case ModelId => if |redacted| > MAX_MODEL_ID then LengthMarker(|redacted|) else redacted
    case Path => Cut(PathSweep(redacted), MAX_PATH)
    case Ordinary => SubFrom(FULL, Bounded, redacted, 0)
  }

  /** A log field's value. `Other` is a number, a boolean, `None` or any object that is none of the rest. */
  datatype Value =
    | Str(text: string)
    | List(items: seq<Value>)
    | Mapping(entries: seq<Entry>)
    | Other(tag: int)

  datatype Entry = Entry(key: string, value: Value)

  function RedactValue(lower: string -> string, key: string, v: Value): Value
    decreases v
  {
    var k := lower(key);
    if ContainsAny(k, RAW_TEXT_KEYS) then Str(TEXT_VALUE)
    else if ContainsAny(k, SECRET_KEY_PARTS) then Str(SECRET_VALUE)
    else
      match v
      case Mapping(entries) =>
        Mapping(seq(|entries|, i requires 0 <= i < |entries| =>
          Entry(entries[i].key, RedactValue(lower, entries[i].key, entries[i].value))))
      case List(items) =>
        List(seq(|items|, i requires 0 <= i < |items| => RedactValue(lower, key, items[i])))
      case Str(text) => Str(RedactString(RuleOf(k), text))
      case Other(_) => v
  }

  // Bounds

  lemma MarkerLengths(n: nat)
    ensures |LengthMarker(n)| == 19 + |Decimal(n)|
    ensures |SegmentMarker(n)| == 23 + |Decimal(n)|
  {
  }

  predicate IsMarker(out: string, n: nat) {
    out == LengthMarker(n) || out == SegmentMarker(n)
  }

  /** The most characters a rule can print when it does not print a marker. */
  function Cap(rule: Rule): nat {
    match rule
    case OpaqueId | Path => 172
    case ModelId => MAX_MODEL_ID
    case Ordinary => 17408
  }

  /** What comes out of a string of any length: a marker, or a text no longer than the rule's cap. */
  lemma StringIsBounded(rule: Rule, s: string)
    ensures var out := RedactString(rule, s);
      |out| <= Cap(rule) || exists n :: IsMarker(out, n)
  {
    var out := RedactString(rule, s);
    if rule == Path && CountOf(s, '/') > MAX_PATH_SEGMENTS {
      assert IsMarker(out, CountOf(s, '/'));
    } else if |s| > MAX_SCANNED_CHARS {
      assert IsMarker(out, |s|);
    } else {
      var redacted := BearerSub(s);
      BearerSubIsBounded(s);
      match rule
      case OpaqueId | Path => assert |TRUNCATED| == 12;
      case ModelId => assert |redacted| <= MAX_MODEL_ID || IsMarker(out, |redacted|);
      case Ordinary =>
        TheSweepIsItsSimpleForm(redacted);
        SweepNeverGrows(FULL, redacted);
    }
  }

  // What is left in the text

  lemma TruncationJoinsNoRun(s: string, limit: nat)
    requires NoLongRun(NO_SLASH, s)
    ensures NoLongRun(NO_SLASH, Cut(s, limit))
  {
    if |s| > limit {
      CutHasNoLongRun(NO_SLASH, s, limit);
      NoLongRunJoins(NO_SLASH, s[..limit], TRUNCATED);
    }
  }

  ghost predicate NoLongSegment(s: string) {
    forall p | p in Split(s) :: NoLongRun(FULL, p)
  }

  lemma CutPathHidesSecrets(s: string, limit: nat)
    ensures NoLongSegment(Cut(PathSweep(s), limit))
  {
    var swept := PathSweep(s);
    assert NoLongRun(NO_SLASH, swept) by {
      PathSweepIsTheNarrowerSweep(s);
      SweptHasNoLongRun(NO_SLASH, s);
    }
    TruncationJoinsNoRun(swept, limit);
    SegmentsHaveNoLongRun(Cut(swept, limit));
  }

  lemma SweptPath(redacted: string)
    ensures NoLongSegment(RedactSwept(Path, redacted))
  {
    CutPathHidesSecrets(redacted, MAX_PATH);
  }

  /** A path's segments hold no run of thirty-two or more, and the cut does not make one. */
  lemma PathSegmentsHideSecrets(s: string)
    requires !TooLong(Path, s)
    ensures NoLongSegment(RedactString(Path, s))
  {
    SweptPath(BearerSub(s));
  }

  /** An ordinary field's text holds no run of thirty-two or more at all. */
  lemma NoSecretShapeSurvives(s: string)
    requires |s| <= MAX_SCANNED_CHARS
    ensures NoLongRun(FULL, RedactString(Ordinary, s))
  {
    TheSweepIsItsSimpleForm(BearerSub(s));
    SweptHasNoLongRun(FULL, BearerSub(s));
  }

  // No credential is printed, under any rule

  lemma DigitsNeverStart(n: nat)
    ensures forall c | c in Decimal(n) :: NeverStarts(c)
  {
    DecimalIsRead(n);
  }

  lemma MarkersAreClear(n: nat)
    ensures NoBearer(LengthMarker(n)) && NoBearer(SegmentMarker(n))
  {
    DigitsNeverStart(n);
    NoStartIsClear(LengthMarker(n));
    NoStartIsClear(SegmentMarker(n));
  }

  lemma TruncatedIsMark()
    ensures IsMark(TRUNCATED)
  {
  }

  lemma CutKeepsClear(s: string, limit: nat)
    requires NoBearer(s)
    ensures NoBearer(Cut(s, limit))
  {
    if |s| > limit {
      TruncatedIsMark();
      CutIsClear(s, limit, TRUNCATED);
    }
  }

  lemma PathKeepsClear(s: string)
    requires NoBearer(s)
    ensures NoBearer(PathSweep(s))
  {
    PathSweepIsTheNarrowerSweep(s);
    SweptIsClear(NO_SLASH, s);
  }

  lemma OrdinaryKeepsClear(s: string)
    requires NoBearer(s)
    ensures NoBearer(SubFrom(FULL, Bounded, s, 0))
  {
    TheSweepIsItsSimpleForm(s);
    SweptIsClear(FULL, s);
  }

  lemma SweptHasNoCredential(rule: Rule, redacted: string)
    requires NoBearer(redacted)
    ensures NoBearer(RedactSwept(rule, redacted))
  {
    match rule
    case OpaqueId => CutKeepsClear(redacted, MAX_OPAQUE_ID);
    case ModelId => MarkersAreClear(|redacted|);
    case Path =>
      PathKeepsClear(redacted);
      CutKeepsClear(PathSweep(redacted), MAX_PATH);
    case Ordinary => OrdinaryKeepsClear(redacted);
  }

  /**
   Whatever the field and whatever the text, nothing that is printed holds a
   `Bearer` credential: neither the entropy sweep, nor the path sweep, nor a cut,
   nor a marker makes one out of what the first sweep left.
   */
  lemma NoCredentialIsPrinted(rule: Rule, s: string)
    ensures !HoldsCredential(RedactString(rule, s))
  {
    PrintsClear(rule, s);
    ClearHoldsNone(RedactString(rule, s));
  }

  lemma PrintsClear(rule: Rule, s: string)
    ensures NoBearer(RedactString(rule, s))
  {
    if rule == Path && CountOf(s, '/') > MAX_PATH_SEGMENTS {
      MarkersAreClear(CountOf(s, '/'));
    } else if |s| > MAX_SCANNED_CHARS {
      MarkersAreClear(|s|);
    } else {
      NoCredentialSurvives(s);
      SweptHasNoCredential(rule, BearerSub(s));
    }
  }

  /** An exempt identifier keeps no credential, cut or not; within its cap it is the Bearer sweep of itself. */
  lemma ExemptKeepsNoCredential(rule: Rule, s: string)
    requires rule in {OpaqueId, ModelId}
    ensures !HoldsCredential(RedactString(rule, s))
    ensures |s| <= MAX_SCANNED_CHARS && |BearerSub(s)| <= (if rule == OpaqueId then MAX_OPAQUE_ID else MAX_MODEL_ID) ==>
      RedactString(rule, s) == BearerSub(s)
  {
    NoCredentialIsPrinted(rule, s);
  }

  // Any value

  /** What a field under `key` may print: a marker or a text within its own cap, and no credential. */
  ghost predicate Printable(lower: string -> string, key: string, out: string) {
    && (|out| <= Cap(RuleOf(lower(key))) || exists n :: IsMarker(out, n))
    && !HoldsCredential(out)
  }

  /** Every string in the value is printable for the key nearest to it. */
  ghost predicate AllPrintable(lower: string -> string, key: string, v: Value)
    decreases v
  {
    match v
    case Str(text) => Printable(lower, key, text)
    case List(items) => forall i | 0 <= i < |items| :: AllPrintable(lower, key, items[i])
    case Mapping(entries) => forall i | 0 <= i < |entries| :: AllPrintable(lower, entries[i].key, entries[i].value)
    case Other(_) => true
  }

  lemma ConstantsArePrintable(lower: string -> string, key: string)
    ensures Printable(lower, key, TEXT_VALUE) && Printable(lower, key, SECRET_VALUE)
  {
    NoStartIsClear(TEXT_VALUE);
    NoStartIsClear(SECRET_VALUE);
    ClearHoldsNone(TEXT_VALUE);
    ClearHoldsNone(SECRET_VALUE);
  }

  lemma TextIsPrintable(lower: string -> string, key: string, text: string)
    ensures Printable(lower, key, RedactString(RuleOf(lower(key)), text))
  {
    StringIsBounded(RuleOf(lower(key)), text);
    NoCredentialIsPrinted(RuleOf(lower(key)), text);
  }

  /**
   Over any nesting of lists and mappings every string that comes out is within
   the cap of its own key, or a marker, and holds no credential.
   */
  lemma {:induction false} RedactionIsBounded(lower: string -> string, key: string, v: Value)
    ensures AllPrintable(lower, key, RedactValue(lower, key, v))
    decreases v
  {
    ConstantsArePrintable(lower, key);
    var k := lower(key);
    if !ContainsAny(k, RAW_TEXT_KEYS) && !ContainsAny(k, SECRET_KEY_PARTS) {
      match v
      case Str(text) => TextIsPrintable(lower, key, text);
      case List(items) =>
        forall i | 0 <= i < |items| ensures AllPrintable(lower, key, RedactValue(lower, key, items[i])) {
          RedactionIsBounded(lower, key, items[i]);
        }
      case Mapping(entries) =>
        forall i | 0 <= i < |entries|
          ensures AllPrintable(lower, entries[i].key, RedactValue(lower, entries[i].key, entries[i].value))
        {
          RedactionIsBounded(lower, entries[i].key, entries[i].value);
        }
      case Other(_) =>
    }
  }

  /** Above the caps nothing of the value is printed: two values with the same counts print the same. */
  lemma MarkersShowOnlyCounts(rule: Rule, s: string, t: string)
    requires |s| == |t| > MAX_SCANNED_CHARS && CountOf(s, '/') == CountOf(t, '/')
    ensures RedactString(rule, s) == RedactString(rule, t)
  {
  }

  /** A secret or raw-text key hides the whole value under it, however deep. */
  lemma NamedKeysHideTheirValue(lower: string -> string, key: string, v: Value, w: Value)
    requires ContainsAny(lower(key), RAW_TEXT_KEYS) || ContainsAny(lower(key), SECRET_KEY_PARTS)
    ensures RedactValue(lower, key, v) == RedactValue(lower, key, w)
  {
  }
}
