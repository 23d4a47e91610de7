/** Runs of questions: what an answer always carries, and which one a hit repeats. */
module AnswerRuns {
  import opened Wrappers
  import opened CacheKey
  import opened Citations
  import opened AnswerPipeline

  /** Settings, index and clock may change from one question to the next. */
  function CacheOf(ts: seq<Turn>): map<string, Cached> {
    if ts == [] then map[] else CacheAfter(CacheOf(ts[..|ts| - 1]), ts[|ts| - 1])
  }

  /** What the question at `k` got. */
  function ReplyTo(ts: seq<Turn>, k: nat): Result<Response, Failure>
    requires k < |ts|
  {
    Outcome(CacheOf(ts[..k]), ts[k])
  }

  /** Neither a refusal nor a greeting. */
  predicate IsAnswer(t: Turn, r: Result<Response, Failure>) {
    r.Ok? && !t.greeting && !r.value.noAnswer && !r.value.unsupported
  }

  // The cards of one answer

  predicate Ascending(cards: seq<Card>) {
    forall i, j | 0 <= i < j < |cards| :: cards[i].marker < cards[j].marker
  }

  predicate Backed(c: Card, hits: seq<Hit>) {
    1 <= c.marker <= |hits| && c.chunk == hits[c.marker - 1].chunk && c.docsAsOf == hits[c.marker - 1].docsAsOf
  }

  function Markers(cards: seq<Card>): set<nat> {
    set c | c in cards :: c.marker
  }

  /** Cards are bullets from `from` on... */
  lemma {:induction false} CardsAreBacked(hits: seq<Hit>, cited: set<nat>, from: nat)
    requires 1 <= from
    ensures forall c | c in CardsFrom(hits, cited, from) :: from <= c.marker && Backed(c, hits)
    decreases |hits| + 1 - from
  {
    if from <= |hits| {
      CardsAreBacked(hits, cited, from + 1);
    }
  }

  /** ...in rising order. */
  lemma {:induction false} CardsRise(hits: seq<Hit>, cited: set<nat>, from: nat)
    requires 1 <= from
    ensures Ascending(CardsFrom(hits, cited, from))
    decreases |hits| + 1 - from
  {
    if from <= |hits| {
      CardsAreBacked(hits, cited, from + 1);
      CardsRise(hits, cited, from + 1);
    }
  }

  /** A bullet has a card if and only if it is cited. */
  lemma {:induction false} CardsAreTheCited(hits: seq<Hit>, cited: set<nat>, from: nat, n: nat)
    requires 1 <= from
    ensures n in Markers(CardsFrom(hits, cited, from)) <==> n in cited && from <= n <= |hits|
    decreases |hits| + 1 - from
  {
    if from <= |hits| {
      var rest := CardsFrom(hits, cited, from + 1);
      CardsAreTheCited(hits, cited, from + 1, n);
      if from in cited {
        MarkersOfCons(Card(from, hits[from - 1].chunk, hits[from - 1].docsAsOf), rest);
      }
    }
  }

  lemma MarkersOfCons(c: Card, rest: seq<Card>)
    ensures Markers([c] + rest) == {c.marker} + Markers(rest)
  {
    assert c in [c] + rest;
    forall d | d in rest ensures d in [c] + rest {
    }
  }

  lemma CardsAreTheCitedBullets(hits: seq<Hit>, cited: set<nat>)
    requires forall n | n in cited :: 1 <= n <= |hits|
    ensures Markers(CardsFrom(hits, cited, 1)) == cited
  {
    forall n: nat ensures n in Markers(CardsFrom(hits, cited, 1)) <==> n in cited {
      CardsAreTheCited(hits, cited, 1, n);
    }
  }

  /** Cards under exactly the numbers the text shows, in order, and at least one. */
  predicate Cites(c: Content) {
    && c.cards != [] && Ascending(c.cards)
    && Markers(c.cards) == CitedMarkers(c.text)
    && forall m | m in Markers(c.cards) :: m >= 1
  }

  predicate Sound(a: Attempt) {
    exists refusal :: a.verdict == Validate(refusal, a.pieces, |a.hits|)
  }

  lemma GroundedContentCites(t: Turn, a: Attempt)
    requires Sound(a) && Grounded(a)
    ensures Cites(AnswerOf(t, a))
    ensures forall c | c in AnswerOf(t, a).cards :: Backed(c, a.hits)
  {
    var refusal :| a.verdict == Validate(refusal, a.pieces, |a.hits|);
    ValidIsInRange(refusal, a.pieces, |a.hits|);
    CardsAreBacked(a.hits, a.verdict.cited, 1);
    CardsRise(a.hits, a.verdict.cited, 1);
    CardsAreTheCitedBullets(a.hits, a.verdict.cited);
    var cards := CardsFrom(a.hits, a.verdict.cited, 1);
    var m :| m in a.verdict.cited;
    assert m in Markers(cards);
  }

  lemma FreshAnswerCites(t: Turn)
    requires IsAnswer(t, Fresh(t))
    ensures t.reply.Reply? && Grounded(Settled(t))
    ensures Fresh(t).value == Answered(Routed(t), Settled(t).strategy, false, AnswerOf(t, Settled(t)))
    ensures Cites(Fresh(t).value.content)
    ensures forall c | c in Fresh(t).value.content.cards :: Backed(c, Settled(t).hits)
  {
    GroundedContentCites(t, Settled(t));
  }

  // Cache safety

  predicate AllCite(cache: map<string, Cached>) {
    forall k | k in cache :: Cites(cache[k].content)
  }

  lemma CacheKeepsCiting(cache: map<string, Cached>, t: Turn)
    requires AllCite(cache)
    ensures AllCite(CacheAfter(cache, t))
  {
    if t.reply.Reply? && Grounded(Settled(t)) {
      GroundedContentCites(t, Settled(t));
    }
  }

  lemma {:induction false} CacheAlwaysCites(ts: seq<Turn>)
    ensures AllCite(CacheOf(ts))
    decreases |ts|
  {
    if ts != [] {
      CacheAlwaysCites(ts[..|ts| - 1]);
      CacheKeepsCiting(CacheOf(ts[..|ts| - 1]), ts[|ts| - 1]);
    }
  }

  /**
   Over every run of questions, an answer that is no greeting and no refusal,
   fresh or cached, has a card for exactly the markers its text shows, and has
   at least one.
   */
  lemma EveryAnswerIsCited(ts: seq<Turn>, k: nat)
    requires k < |ts| && IsAnswer(ts[k], ReplyTo(ts, k))
    ensures Cites(ReplyTo(ts, k).value.content)
  {
    CacheAlwaysCites(ts[..k]);
    if !ReplyTo(ts, k).value.cacheHit {
      FreshAnswerCites(ts[k]);
    }
  }

  // Which answer a hit repeats

  /** A fresh answer from a retrieval that did not degrade. */
  predicate FreshUndegraded(t: Turn, r: Result<Response, Failure>) {
    IsAnswer(t, r) && !r.value.cacheHit && t.reply.Reply? && Settled(t).degrade == NoDegrade
  }

  /** The question at `j` got such an answer. */
  predicate Froze(ts: seq<Turn>, j: nat)
    requires j < |ts|
  {
    FreshUndegraded(ts[j], ReplyTo(ts, j))
  }

  predicate FrozeUnder(ts: seq<Turn>, j: nat, f: KeyFields)
    requires j < |ts|
  {
    Froze(ts, j) && Fields(ts[j]) == f
  }

  lemma FrozenBefore(ts: seq<Turn>, n: nat, j: nat)
    requires j < n <= |ts|
    ensures ReplyTo(ts[..n], j) == ReplyTo(ts, j) && Froze(ts[..n], j) == Froze(ts, j)
  {
    assert ts[..n][..j] == ts[..j];
  }

  /** The last question frozen under these five fields. */
  function LastFrozen(ts: seq<Turn>, f: KeyFields): (last: Option<nat>)
    ensures last.Some? ==> last.value < |ts| && FrozeUnder(ts, last.value, f)
    decreases |ts|
  {
    if ts == [] then None
    else
      var n := |ts| - 1;
      if FrozeUnder(ts, n, f) then Some(n)
      else
        var last := LastFrozen(ts[..n], f);
        if last.Some? then FrozenBefore(ts, n, last.value); last else None
  }

  lemma {:induction false} NothingFrozenLater(ts: seq<Turn>, f: KeyFields, j: nat)
    requires j < |ts| && (LastFrozen(ts, f).None? || LastFrozen(ts, f).value < j)
    ensures !FrozeUnder(ts, j, f)
    decreases |ts|
  {
    var n := |ts| - 1;
    if j < n {
      NothingFrozenLater(ts[..n], f, j);
      FrozenBefore(ts, n, j);
    }
  }

  /** What happened at `j` does not depend on what came after. */
  lemma FrozenEarlier(ts: seq<Turn>, n: nat)
    requires n <= |ts|
    ensures forall j: nat | j < n :: ReplyTo(ts[..n], j) == ReplyTo(ts, j)
    ensures forall j: nat | j < n :: Froze(ts[..n], j) == Froze(ts, j)
  {
    forall j: nat | j < n ensures ReplyTo(ts[..n], j) == ReplyTo(ts, j) && Froze(ts[..n], j) == Froze(ts, j) {
      assert ts[..n][..j] == ts[..j];
    }
  }

  lemma KeepsExactlyTheFresh(t: Turn)
    requires !t.greeting
    ensures Keeps(t) <==> FreshUndegraded(t, Fresh(t))
    ensures Keeps(t) ==> Fresh(t).value.content == AnswerOf(t, Settled(t))
  {
    if IsAnswer(t, Fresh(t)) {
      FreshAnswerCites(t);
    }
  }

  function Write(cache: map<string, Cached>, t: Turn, c: Content): map<string, Cached> {
    cache[Key(Fields(t)) := Cached(c, t.answeredAt + t.settings.ttl)]
  }

  /** A question writes the cache exactly when it froze an answer, and writes that answer. */
  lemma OneQuestionWrites(cache: map<string, Cached>, t: Turn)
    ensures CacheAfter(cache, t) ==
      if FreshUndegraded(t, Outcome(cache, t)) then Write(cache, t, Outcome(cache, t).value.content) else cache
  {
    if !t.greeting {
      KeepsExactlyTheFresh(t);
    }
  }

  lemma OnlyFrozenIsWritten(ts: seq<Turn>, j: nat)
    requires j < |ts|
    ensures CacheOf(ts[..j + 1]) ==
      if Froze(ts, j) then Write(CacheOf(ts[..j]), ts[j], ReplyTo(ts, j).value.content) else CacheOf(ts[..j])
  {
    assert ts[..j + 1][..j] == ts[..j];
    OneQuestionWrites(CacheOf(ts[..j]), ts[j]);
  }

  predicate AllSeparable(ts: seq<Turn>) {
    forall t | t in ts :: Separable(Fields(t))
  }

  lemma {:induction false} CacheHoldsTheLastFrozen(ts: seq<Turn>, f: KeyFields)
    requires AllSeparable(ts) && Separable(f)
    ensures LastFrozen(ts, f).None? ==> Key(f) !in CacheOf(ts)
    ensures LastFrozen(ts, f).Some? ==>
      var j := LastFrozen(ts, f).value;
      && Key(f) in CacheOf(ts)
      && CacheOf(ts)[Key(f)] == Cached(ReplyTo(ts, j).value.content, ts[j].answeredAt + ts[j].settings.ttl)
    decreases |ts|
  {
    if ts != [] {
      var n := |ts| - 1;
      assert ts[..n + 1] == ts && ts[n] in ts;
      assert AllSeparable(ts[..n]);
      CacheHoldsTheLastFrozen(ts[..n], f);
      FrozenEarlier(ts, n);
      OnlyFrozenIsWritten(ts, n);
      KeysAreDistinct(f, Fields(ts[n]));
    }
  }

  /**
   A question is answered from the cache if and only if an answer was frozen
   under its five fields and the last such has not reached its expiry, and then
   it gets that answer again: the same text, cards, confidence and date.
   */
  lemma HitIsTheLastFrozenAnswer(ts: seq<Turn>, k: nat)
    requires AllSeparable(ts) && k < |ts| && ReadsCache(ts[k])
    ensures var t, before := ts[k], LastFrozen(ts[..k], Fields(ts[k]));
      var r := ReplyTo(ts, k);
      && (r.Ok? && r.value.cacheHit <==>
            before.Some? && t.askedAt < ts[before.value].answeredAt + ts[before.value].settings.ttl)
      && (r.Ok? && r.value.cacheHit ==>
            && r.value.content == ReplyTo(ts, before.value).value.content
            && r.value.docsAsOf == ReplyTo(ts, before.value).value.docsAsOf
            && !r.value.noAnswer && !r.value.unsupported)
  {
    assert ts[k] in ts && AllSeparable(ts[..k]);
    CacheHoldsTheLastFrozen(ts[..k], Fields(ts[k]));
    FrozenEarlier(ts, k);
    FreshIsNoHit(ts[k]);
    if before :| before == LastFrozen(ts[..k], Fields(ts[k])) && before.Some? {
      FreshAnswerCites(ts[before.value]);
    }
  }

  lemma FreshIsNoHit(t: Turn)
    ensures Fresh(t).Ok? ==> !Fresh(t).value.cacheHit
  {
  }

  /** A hit repeats an answer made for this very index, policy and embedder, and with the same comparison setting. */
  lemma HitWasMadeForTheseSettings(ts: seq<Turn>, k: nat)
    requires AllSeparable(ts) && k < |ts| && ReadsCache(ts[k])
    requires ReplyTo(ts, k).Ok? && ReplyTo(ts, k).value.cacheHit
    ensures var c, t := ReplyTo(ts, k).value.content, ts[k];
      c.sourceHash == t.sourceHash && c.policy == Policy(t.settings)
    ensures exists j: nat :: j < k && FrozeUnder(ts, j, Fields(ts[k])) && SameComparison(ts[j], ts[k])
  {
    HitIsTheLastFrozenAnswer(ts, k);
    FrozenEarlier(ts, k);
    var j := LastFrozen(ts[..k], Fields(ts[k])).value;
    FreshAnswerCites(ts[j]);
    assert FrozeUnder(ts, j, Fields(ts[k]));
  }

  predicate SameComparison(t: Turn, u: Turn) {
    t.settings.policy == u.settings.policy ==> t.settings.comparison == u.settings.comparison
  }

  // Beside the cache

  /**
   A refusal is about the documents, never about an outage: when retrieval found
   nothing because embeddings were down there is an error instead. And it says
   "unsupported" exactly of an off-topic question for which nothing was found.
   */
  lemma ARefusalIsNeverAnOutage(ts: seq<Turn>, k: nat)
    requires k < |ts| && ReplyTo(ts, k).Ok? && ReplyTo(ts, k).value.noAnswer
    ensures var t := ts[k];
      && (!RefusedEarly(t) && !SkipsRetrieval(t) && t.first.hits == [] ==> t.first.degrade != Unavailable)
      && (ReplyTo(ts, k).value.unsupported <==> Routed(t) == OffTopic && (RefusedEarly(t) || t.first.hits == []))
  {
  }

  /** `is_counted_answer`: what a month's allowance counts. */
  predicate Counts(r: Response) {
    !r.noAnswer && !r.unsupported && r.content.cards != []
  }

  /** Over every run, a question counts against the allowance if and only if it got an answer. */
  lemma AnswersAreWhatCounts(ts: seq<Turn>, k: nat)
    requires k < |ts| && ReplyTo(ts, k).Ok?
    ensures Counts(ReplyTo(ts, k).value) <==> IsAnswer(ts[k], ReplyTo(ts, k))
  {
    if IsAnswer(ts[k], ReplyTo(ts, k)) {
      EveryAnswerIsCited(ts, k);
    }
  }

  lemma {:induction false} MissingAreasAreUncovered(products: seq<string>, hits: seq<Hit>, counted: set<nat>, p: string)
    ensures p in MissingAreas(products, hits, counted) <==> p in products && !CoveredBy(p, hits, counted)
  {
    if products != [] {
      MissingAreasAreUncovered(products[1..], hits, counted, p);
      assert products == [products[0]] + products[1..];
    }
  }

  /**
   A comparison is never silently half answered: when nothing degraded, the note
   names exactly the searched products no singly cited bullet belongs to.
   */
  lemma NoComparisonIsHalfAnswered(ts: seq<Turn>, k: nat, p: string)
    requires k < |ts| && Froze(ts, k) && MultiHop(ts[k]) && ts[k].settings.comparison
    ensures var a := Settled(ts[k]);
      p in ReplyTo(ts, k).value.content.note
      <==> p in Searched(ts[k].products) && !CoveredBy(p, a.hits, a.verdict.singly)
  {
    FreshAnswerCites(ts[k]);
    var a := Settled(ts[k]);
    MissingAreasAreUncovered(Searched(ts[k].products), a.hits, a.verdict.singly, p);
  }

  function Dates(cards: seq<Card>): set<int> {
    set c | c in cards && c.docsAsOf.Some? :: c.docsAsOf.value
  }

  /** The oldest date among the cards, and no date when no card has one. */
  lemma {:induction false} DocsAsOfIsTheOldest(cards: seq<Card>)
    ensures DocsAsOf(cards).None? <==> Dates(cards) == {}
    ensures DocsAsOf(cards).Some? ==>
      DocsAsOf(cards).value in Dates(cards) && forall d | d in Dates(cards) :: DocsAsOf(cards).value <= d
  {
    if cards != [] {
      DocsAsOfIsTheOldest(cards[1..]);
      assert cards == [cards[0]] + cards[1..];
      assert Dates(cards) == Dates(cards[1..])
        + if cards[0].docsAsOf.Some? then {cards[0].docsAsOf.value} else {};
    }
  }
}
