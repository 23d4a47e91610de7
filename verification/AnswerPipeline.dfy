/**
 `Orchestrator.ask`: one question through the guards, the cache, retrieval,
 generation, validation and the one retry.
 */
module AnswerPipeline {
  import opened Wrappers
  import opened CacheKey
  import opened Citations

  const UNSUPPORTED := "unsupported"
  const COMPARISON_SUFFIX := "+cmp"
  const MAX_MULTIHOP_DOMAINS: nat := 3

  datatype Intent = Faq | ExactLookup | HowTo | Clarify | OffTopic | Greeting
  datatype Strategy = NoStrategy | FromCache | Exact | Hybrid
  datatype Confidence = NoConfidence | Low | Medium | High
  datatype Degrade = NoDegrade | Mismatch | Unavailable | AmbiguousIndex

  /** `docsAsOf` is a day number: the ISO dates of the source order as the days do. */
  datatype Hit = Hit(product: string, chunk: string, docsAsOf: Option<int>, exact: bool)
  datatype Retrieval = Retrieval(hits: seq<Hit>, degrade: Degrade)
  datatype Reply = Down | Reply(refusal: bool, pieces: seq<Piece>)

  datatype Settings =
    Settings(answerWhenGrounded: bool, comparison: bool, policy: string, embedder: string, ttl: int)

  /**
   Everything the outside decides about one question: the classifiers' verdicts,
   what each retrieval finds, what the model writes and the clock.
   `domain`, `intent` and `products` are the classifiers' verdicts on the
   resolved query, `area` is the domain or the sorted products joined, `first`
   and `reply` belong to the first attempt, `second` and `secondReply` to the
   retry. `askedAt` is the clock at the cache read, `answeredAt` at the write.
   */
  datatype Turn = Turn(settings: Settings, greeting: bool, domain: string, intent: Intent,
                       products: seq<string>, query: string, area: string, sourceHash: string,
                       first: Retrieval, reply: Reply, second: Retrieval, secondReply: Reply,
                       askedAt: int, answeredAt: int)

  datatype Card = Card(marker: nat, chunk: string, docsAsOf: Option<int>)

  /** What an answer says, and what the cache keeps of it. `note` names the products it could not cover. */
  datatype Content = Content(text: seq<Piece>, note: seq<string>, cards: seq<Card>, confidence: Confidence,
                             sourceHash: string, policy: string)
  datatype Response = Response(content: Content, docsAsOf: Option<int>, intent: Intent, strategy: Strategy,
                               cacheHit: bool, unsupported: bool, noAnswer: bool)
  datatype Cached = Cached(content: Content, expiresAt: int)
  datatype Failure = EmbeddingsDown | ModelDown

  // The routing verdicts

  function Routed(t: Turn): Intent {
    if t.domain == UNSUPPORTED then OffTopic else t.intent
  }

  predicate AnswersGlobally(t: Turn) {
    t.settings.answerWhenGrounded && Routed(t) == OffTopic
  }

  predicate RefusedEarly(t: Turn) {
    Routed(t) == OffTopic && !t.settings.answerWhenGrounded
  }

  predicate SkipsRetrieval(t: Turn) {
    Routed(t) in {OffTopic, Clarify} && !AnswersGlobally(t)
  }

  predicate MultiHop(t: Turn) {
    |t.products| >= 2
  }

  function Policy(s: Settings): string {
    s.policy + if s.comparison then COMPARISON_SUFFIX else ""
  }

  function Fields(t: Turn): KeyFields {
    KeyFields(t.query, t.area, t.sourceHash, Policy(t.settings), t.settings.embedder)
  }

  /** A turn that gets as far as the cache. */
  predicate ReadsCache(t: Turn) {
    !t.greeting && !RefusedEarly(t)
  }

  /** An entry at or past its expiry is a miss. */
  function Lookup(cache: map<string, Cached>, key: string, now: int): Option<Content> {
    if key in cache && now < cache[key].expiresAt then Some(cache[key].content) else None
  }

  // The answer a grounded reply makes

  function StrategyFor(intent: Intent, hits: seq<Hit>): Strategy {
    if hits == [] then NoStrategy
    else if intent == ExactLookup && forall h | h in hits :: h.exact then Exact
    else Hybrid
  }

  /** The thresholds 0.66 and 0.33, over exact fractions. */
  function ConfidenceFor(counted: nat, bullets: nat): Confidence {
    if counted == 0 || bullets == 0 then Low
    else if 100 * counted >= 66 * bullets then High
    else if 100 * counted >= 33 * bullets then Medium
    else Low
  }

  /** The cited bullets from `from` on, each under the number the text uses for it. */
  function CardsFrom(hits: seq<Hit>, cited: set<nat>, from: nat): seq<Card>
    requires 1 <= from
    decreases |hits| + 1 - from
  {
    if from > |hits| then []
    else
      var rest := CardsFrom(hits, cited, from + 1);
      if from in cited then [Card(from, hits[from - 1].chunk, hits[from - 1].docsAsOf)] + rest else rest
  }

  /** The oldest date among the cards; cards without one are skipped. */
  function DocsAsOf(cards: seq<Card>): Option<int> {
    if cards == [] then None
    else
      var rest := DocsAsOf(cards[1..]);
      if cards[0].docsAsOf.Some? && (rest.None? || cards[0].docsAsOf.value < rest.value) then cards[0].docsAsOf
      else rest
  }

  /** The products actually searched. */
  function Searched(products: seq<string>): seq<string> {
    if |products| <= MAX_MULTIHOP_DOMAINS then products else products[..MAX_MULTIHOP_DOMAINS]
  }

  predicate CoveredBy(product: string, hits: seq<Hit>, counted: set<nat>) {
    exists i | i in counted :: 1 <= i <= |hits| && hits[i - 1].product == product
  }

  function MissingAreas(products: seq<string>, hits: seq<Hit>, counted: set<nat>): seq<string> {
    if products == [] then []
    else (if CoveredBy(products[0], hits, counted) then [] else [products[0]])
         + MissingAreas(products[1..], hits, counted)
  }

  // One attempt, and the retry

  datatype Attempt = Attempt(hits: seq<Hit>, degrade: Degrade, pieces: seq<Piece>, verdict: Verdict, strategy: Strategy)

  function Tried(r: Retrieval, reply: Reply, intent: Intent): Attempt
    requires reply.Reply?
  {
    Attempt(r.hits, r.degrade, reply.pieces, Validate(reply.refusal, reply.pieces, |r.hits|), StrategyFor(intent, r.hits))
  }

  predicate Grounded(a: Attempt) {
    a.verdict.valid && a.verdict.singly != {}
  }

  /** The retry's attempt, when it is one worth keeping. */
  function Retried(t: Turn): Option<Attempt> {
    if t.second.hits == [] || t.secondReply.Down? then None
    else
      var a := Tried(t.second, t.secondReply, Faq);
      if Grounded(a) then Some(a) else None
  }

  /** The attempt the answer is made from: the first, unless it cited nothing by an exact lookup and the retry grounds. */
  function Settled(t: Turn): Attempt
    requires t.reply.Reply?
  {
    var a := Tried(t.first, t.reply, Routed(t));
    if a.verdict.valid && a.verdict.singly == {} && a.strategy == Exact && Retried(t).Some? then Retried(t).value else a
  }

  function Note(t: Turn, a: Attempt): seq<string> {
    if MultiHop(t) && t.settings.comparison && a.degrade == NoDegrade
    then MissingAreas(Searched(t.products), a.hits, a.verdict.singly)
    else []
  }

  function AnswerOf(t: Turn, a: Attempt): Content {
    Content(Expand(a.pieces), Note(t, a), CardsFrom(a.hits, a.verdict.cited, 1),
            ConfidenceFor(|a.verdict.singly|, |a.hits|), t.sourceHash, Policy(t.settings))
  }

  // The responses

  const NOTHING := Content([], [], [], NoConfidence, "", "")

  const GREETED := Response(NOTHING, None, Greeting, NoStrategy, false, false, false)

  const OFF_TOPIC := Response(NOTHING, None, OffTopic, NoStrategy, false, true, true)

  function NoAnswer(intent: Intent, strategy: Strategy): Response {
    Response(NOTHING, None, intent, strategy, false, false, true)
  }

  function Answered(intent: Intent, strategy: Strategy, hit: bool, c: Content): Response {
    Response(c, DocsAsOf(c.cards), intent, strategy, hit, false, false)
  }

  /** A question past the cache, answered afresh. */
  function Fresh(t: Turn): Result<Response, Failure> {
    if SkipsRetrieval(t) then Ok(NoAnswer(Routed(t), NoStrategy))
    else if t.first.hits == [] then
      if t.first.degrade == Unavailable then Err(EmbeddingsDown)
      else if AnswersGlobally(t) then Ok(OFF_TOPIC)
      else Ok(NoAnswer(Routed(t), NoStrategy))
    else if t.reply.Down? then Err(ModelDown)
    else
      var a := Settled(t);
      if !a.verdict.valid then Ok(NoAnswer(Routed(t), a.strategy))
      else if a.verdict.singly == {} then Ok(NoAnswer(Routed(t), NoStrategy))
      else Ok(Answered(Routed(t), a.strategy, false, AnswerOf(t, a)))
  }

  /** A fresh grounded answer that no part of its retrieval degraded: the only kind the cache keeps. */
  predicate Keeps(t: Turn) {
    && !SkipsRetrieval(t) && t.first.hits != [] && t.reply.Reply?
    && Grounded(Settled(t)) && Settled(t).degrade == NoDegrade
  }

  function Outcome(cache: map<string, Cached>, t: Turn): Result<Response, Failure> {
    if t.greeting then Ok(GREETED)
    else if RefusedEarly(t) then Ok(OFF_TOPIC)
    else
      match Lookup(cache, Key(Fields(t)), t.askedAt)
      case Some(c) => Ok(Answered(Routed(t), FromCache, true, c))
      case None => Fresh(t)
  }

  function CacheAfter(cache: map<string, Cached>, t: Turn): map<string, Cached> {
    if ReadsCache(t) && Lookup(cache, Key(Fields(t)), t.askedAt).None? && Keeps(t)
    then cache[Key(Fields(t)) := Cached(AnswerOf(t, Settled(t)), t.answeredAt + t.settings.ttl)]
    else cache
  }

  class Orchestrator {
    var cache: map<string, Cached>

    constructor ()
      ensures cache == map[]
    {
      cache := map[];
    }

    method Ask(t: Turn) returns (r: Result<Response, Failure>)
      modifies this
      ensures r == Outcome(old(cache), t) && cache == CacheAfter(old(cache), t)
    {
      if t.greeting {
        return Ok(GREETED);
      }
      var intent := t.intent;
      if t.domain == UNSUPPORTED {
        intent := OffTopic;
      }
      var globally := t.settings.answerWhenGrounded && intent == OffTopic;
      if intent == OffTopic && !globally {
        return Ok(OFF_TOPIC);
      }
      var key := Key(Fields(t));
      var cached := Lookup(cache, key, t.askedAt);
      if cached.Some? {
        return Ok(Answered(intent, FromCache, true, cached.value));
      }
      if intent in {OffTopic, Clarify} && !globally {
        return Ok(NoAnswer(intent, NoStrategy));
      }
      r := AskAfresh(t, key, intent, globally);
    }

    /** From retrieval on. */
    method AskAfresh(t: Turn, key: string, intent: Intent, globally: bool) returns (r: Result<Response, Failure>)
      requires intent == Routed(t) && globally == AnswersGlobally(t) && !SkipsRetrieval(t)
      modifies this
      ensures r == Fresh(t)
      ensures cache == if Keeps(t) then old(cache)[key := Cached(AnswerOf(t, Settled(t)), t.answeredAt + t.settings.ttl)]
                       else old(cache)
    {
      var evidence, degrade := t.first.hits, t.first.degrade;
      if evidence == [] {
        if degrade == Unavailable {
          return Err(EmbeddingsDown);
        }
        return Ok(if globally then OFF_TOPIC else NoAnswer(intent, NoStrategy));
      }
      var strategy := StrategyFor(intent, evidence);
      if t.reply.Down? {
        return Err(ModelDown);
      }
      var pieces := t.reply.pieces;
      var validation := Validate(t.reply.refusal, pieces, |evidence|);
      if !validation.valid {
        return Ok(NoAnswer(intent, strategy));
      }
      if validation.singly == {} && strategy == Exact {
        var retried := RetryWithoutExactLookup(t);
        if retried.Some? {
          evidence, degrade, pieces, validation :=
            retried.value.hits, retried.value.degrade, retried.value.pieces, retried.value.verdict;
          strategy := StrategyFor(Faq, evidence);
        }
      }
      if validation.singly == {} {
        return Ok(NoAnswer(intent, NoStrategy));
      }
      var note := [];
      if MultiHop(t) && t.settings.comparison && degrade == NoDegrade {
        note := MissingAreas(Searched(t.products), evidence, validation.singly);
      }
      var content := Content(Expand(pieces), note, CardsFrom(evidence, validation.cited, 1),
                             ConfidenceFor(|validation.singly|, |evidence|), t.sourceHash, Policy(t.settings));
      var response := PersistAndRespond(t, key, intent, strategy, content, degrade);
      return Ok(response);
    }

    /** A second look through the full hybrid path, kept only when it grounds; a model that fails here is no error. */
    method RetryWithoutExactLookup(t: Turn) returns (kept: Option<Attempt>)
      ensures kept == Retried(t)
      ensures kept.Some? ==> Grounded(kept.value) && kept.value.hits == t.second.hits && kept.value.hits != []
    {
      if t.second.hits == [] {
        return None;
      }
      if t.secondReply.Down? {
        return None;
      }
      var validation := Validate(t.secondReply.refusal, t.secondReply.pieces, |t.second.hits|);
      if !validation.valid || validation.singly == {} {
        return None;
      }
      return Some(Attempt(t.second.hits, t.second.degrade, t.secondReply.pieces, validation,
                          StrategyFor(Faq, t.second.hits)));
    }

    /** The cache is written only when nothing degraded. */
    method PersistAndRespond(t: Turn, key: string, intent: Intent, strategy: Strategy, content: Content,
                             degrade: Degrade)
      returns (r: Response)
      modifies this
      ensures r == Answered(intent, strategy, false, content)
      ensures cache == if degrade == NoDegrade then old(cache)[key := Cached(content, t.answeredAt + t.settings.ttl)]
                       else old(cache)
    {
      if degrade == NoDegrade {
        cache := cache[key := Cached(content, t.answeredAt + t.settings.ttl)];
      }
      r := Answered(intent, strategy, false, content);
    }
  }
}
