/** Which reply every question of a run gets, and what an answer says of itself. */
module AnswerReplies {
  import opened Wrappers
  import opened CacheKey
  import opened Citations
  import opened AnswerPipeline
  import opened AnswerRuns

  // Which question gets how far

  predicate OffTopicQuestion(t: Turn) {
    t.domain == "unsupported" || t.intent == OffTopic
  }

  /** No greeting, and no off-topic question where those are refused at once. */
  predicate ReachesTheCache(t: Turn) {
    !t.greeting && (OffTopicQuestion(t) ==> t.settings.answerWhenGrounded)
  }

  /** The guards let the question through as far as the documents: it is not too short either. */
  predicate Searches(t: Turn) {
    ReachesTheCache(t) && (t.intent == Clarify ==> t.domain == "unsupported")
  }

  /** A live cache row answers it before that. */
  predicate Repeats(ts: seq<Turn>, k: nat)
    requires k < |ts|
  {
    var key, cache := Key(Fields(ts[k])), CacheOf(ts[..k]);
    key in cache && ts[k].askedAt < cache[key].expiresAt
  }

  predicate Retrieved(ts: seq<Turn>, k: nat)
    requires k < |ts|
  {
    Searches(ts[k]) && !Repeats(ts, k)
  }

  // Errors

  /** An outage of the embeddings is an error exactly when it left a searched question with no evidence at all. */
  lemma OutageExactly(ts: seq<Turn>, k: nat)
    requires k < |ts|
    ensures ReplyTo(ts, k) == Err(EmbeddingsDown)
       <==> Retrieved(ts, k) && ts[k].first.hits == [] && ts[k].first.degrade == Unavailable
  {
  }

  /** A model that is down is an error exactly when there was evidence to answer from; in the second look it is none. */
  lemma ModelDownExactly(ts: seq<Turn>, k: nat)
    requires k < |ts|
    ensures ReplyTo(ts, k) == Err(ModelDown)
       <==> Retrieved(ts, k) && ts[k].first.hits != [] && ts[k].reply == Down
  {
  }

  // Refusals

  predicate Bare(r: Response) {
    r.content.cards == [] && r.content.text == [] && r.content.confidence == NoConfidence && r.docsAsOf == None && !r.cacheHit
  }

  /** When nothing is found and nothing is down the reply is no answer, and says "unsupported" exactly of an off-topic question. */
  lemma NothingFoundIsNoAnswer(ts: seq<Turn>, k: nat)
    requires k < |ts| && Retrieved(ts, k) && ts[k].first.hits == [] && ts[k].first.degrade != Unavailable
    ensures var r := ReplyTo(ts, k);
      r.Ok? && Bare(r.value) && r.value.noAnswer && (r.value.unsupported <==> OffTopicQuestion(ts[k]))
  {
  }

  /** A question the guards stop never fails: it is greeted, refused as off topic, or told there is no answer. */
  lemma StoppedQuestions(ts: seq<Turn>, k: nat)
    requires k < |ts| && !Searches(ts[k])
    ensures var t, r := ts[k], ReplyTo(ts, k);
      && r.Ok?
      && (t.greeting ==> Bare(r.value) && r.value.intent == Greeting && !r.value.noAnswer && !r.value.unsupported)
      && (!t.greeting && OffTopicQuestion(t) ==> Bare(r.value) && r.value.noAnswer && r.value.unsupported)
      && (!t.greeting && !OffTopicQuestion(t) && !Repeats(ts, k) ==>
            Bare(r.value) && r.value.noAnswer && !r.value.unsupported)
  {
  }

  // Answers

  /** The reply grounds in these hits: it is there, its markers are bullets, and it writes one singly. */
  predicate GroundsIn(reply: Reply, hits: seq<Hit>) {
    && hits != [] && reply.Reply?
    && var v := Validate(reply.refusal, reply.pieces, |hits|); v.valid && v.singly != {}
  }

  predicate ExactlyLookedUp(t: Turn) {
    t.intent == ExactLookup && t.domain != "unsupported" && forall h | h in t.first.hits :: h.exact
  }

  /** An exact lookup whose valid reply counts no marker is looked at a second time. */
  predicate LooksAgain(t: Turn) {
    && ExactlyLookedUp(t) && t.first.hits != [] && t.reply.Reply?
    && var v := Validate(t.reply.refusal, t.reply.pieces, |t.first.hits|); v.valid && v.singly == {}
  }

  /** The hits and the reply an answer rests on. */
  function Basis(t: Turn): (Retrieval, Reply) {
    if GroundsIn(t.reply, t.first.hits) then (t.first, t.reply) else (t.second, t.secondReply)
  }

  predicate AnswersAfresh(ts: seq<Turn>, k: nat)
    requires k < |ts|
  {
    Retrieved(ts, k)
    && (GroundsIn(ts[k].reply, ts[k].first.hits) || (LooksAgain(ts[k]) && GroundsIn(ts[k].secondReply, ts[k].second.hits)))
  }

  /**
   Over every run a question is answered exactly when a live cache row repeats an
   answer, or a reply grounds in what was found: the first, or after an exact
   lookup that counted nothing the second.
   */
  lemma AnsweredExactly(ts: seq<Turn>, k: nat)
    requires k < |ts|
    ensures IsAnswer(ts[k], ReplyTo(ts, k))
       <==> AnswersAfresh(ts, k) || (ReachesTheCache(ts[k]) && Repeats(ts, k))
  {
    if LooksAgain(ts[k]) {
      LooksAgainIsExact(ts[k]);
    }
  }

  lemma LooksAgainIsExact(t: Turn)
    requires t.first.hits != []
    ensures StrategyFor(Routed(t), t.first.hits) == Exact <==> ExactlyLookedUp(t)
  {
  }

  predicate ConfidenceIs(c: Confidence, counted: nat, bullets: nat)
    requires bullets > 0
  {
    var ratio := counted as real / bullets as real;
    && (c == High <==> ratio >= 0.66)
    && (c == Medium <==> 0.33 <= ratio < 0.66)
    && (c == Low <==> ratio < 0.33)
  }

  lemma RatioReaches(counted: real, bullets: real, least: real)
    requires bullets > 0.0
    ensures counted / bullets >= least <==> counted >= least * bullets
  {
    var over := counted / bullets - least;
    assert over * bullets == counted - least * bullets;
    assert over >= 0.0 ==> over * bullets >= 0.0;
    assert over < 0.0 ==> over * bullets < 0.0;
  }

  lemma ConfidenceIsTheRatio(counted: nat, bullets: nat)
    requires bullets > 0
    ensures ConfidenceIs(ConfidenceFor(counted, bullets), counted, bullets)
  {
    RatioReaches(counted as real, bullets as real, 0.66);
    RatioReaches(counted as real, bullets as real, 0.33);
  }

  predicate OldestOf(date: Option<int>, cards: seq<Card>) {
    && (date.None? ==> forall c | c in cards :: c.docsAsOf.None?)
    && (date.Some? ==>
          && (exists c | c in cards :: c.docsAsOf == date)
          && forall c | c in cards && c.docsAsOf.Some? :: date.value <= c.docsAsOf.value)
  }

  lemma DatedByItsCards(cards: seq<Card>)
    ensures OldestOf(DocsAsOf(cards), cards)
  {
    DocsAsOfIsTheOldest(cards);
    forall c | c in cards && c.docsAsOf.Some? ensures c.docsAsOf.value in Dates(cards) {
    }
  }

  /** Over every run a reply, fresh or cached, carries the oldest date among its own cards. */
  lemma EveryReplyIsDated(ts: seq<Turn>, k: nat)
    requires k < |ts| && ReplyTo(ts, k).Ok?
    ensures OldestOf(ReplyTo(ts, k).value.docsAsOf, ReplyTo(ts, k).value.content.cards)
  {
    DatedByItsCards(ReplyTo(ts, k).value.content.cards);
  }

  /** What a fresh answer says of itself: where it was looked up, how sure it is, and which sources it rests on. */
  lemma FreshAnswersSayWhatTheyRestOn(ts: seq<Turn>, k: nat)
    requires k < |ts| && AnswersAfresh(ts, k)
    ensures var t, (found, reply) := ts[k], Basis(ts[k]);
      var v := Validate(reply.refusal, reply.pieces, |found.hits|);
      && ReplyTo(ts, k).Ok? && GroundsIn(reply, found.hits)
      && var r := ReplyTo(ts, k).value;
      && !r.cacheHit && r.intent == (if OffTopicQuestion(t) then OffTopic else t.intent)
      && (r.strategy == if GroundsIn(t.reply, t.first.hits) && ExactlyLookedUp(t) then Exact else Hybrid)
      && ConfidenceIs(r.content.confidence, |v.singly|, |found.hits|)
      && r.content.text == Expand(reply.pieces) && Markers(r.content.cards) == v.cited
      && (forall c | c in r.content.cards :: Backed(c, found.hits))
  {
    var t, found, reply := ts[k], Basis(ts[k]).0, Basis(ts[k]).1;
    LooksAgainIsExact(t);
    ConfidenceIsTheRatio(|Validate(reply.refusal, reply.pieces, |found.hits|).singly|, |found.hits|);
    AnsweredExactly(ts, k);
    FreshAnswerCites(t);
    ValidIsInRange(reply.refusal, reply.pieces, |found.hits|);
    CardsAreTheCitedBullets(found.hits, Validate(reply.refusal, reply.pieces, |found.hits|).cited);
  }

  lemma BasisIsSettled(ts: seq<Turn>, k: nat)
    requires k < |ts| && AnswersAfresh(ts, k)
    ensures var (found, reply) := Basis(ts[k]);
      && ts[k].reply.Reply? && reply.Reply?
      && Settled(ts[k]).hits == found.hits && Settled(ts[k]).degrade == found.degrade
      && Settled(ts[k]).verdict == Validate(reply.refusal, reply.pieces, |found.hits|)
      && IsAnswer(ts[k], Fresh(ts[k])) && ReplyTo(ts, k) == Fresh(ts[k])
  {
    LooksAgainIsExact(ts[k]);
  }

  /** An answer is frozen exactly when it is fresh and the retrieval it rests on did not degrade. */
  lemma FrozenExactly(ts: seq<Turn>, k: nat)
    requires k < |ts|
    ensures Froze(ts, k) <==> AnswersAfresh(ts, k) && Basis(ts[k]).0.degrade == NoDegrade
  {
    AnsweredExactly(ts, k);
    if AnswersAfresh(ts, k) {
      BasisIsSettled(ts, k);
    }
  }

  /** Among the first three products, and none of its bullets is counted. */
  predicate LeftOut(products: seq<string>, hits: seq<Hit>, counted: set<nat>, p: string) {
    && (exists j | 0 <= j < |products| :: j < 3 && products[j] == p)
    && forall i: nat | i in counted && 1 <= i <= |hits| :: hits[i - 1].product != p
  }

  lemma NotedAreLeftOut(products: seq<string>, hits: seq<Hit>, counted: set<nat>, p: string)
    ensures p in MissingAreas(Searched(products), hits, counted) <==> LeftOut(products, hits, counted, p)
  {
    MissingAreasAreUncovered(Searched(products), hits, counted, p);
    assert p in Searched(products) <==> exists j | 0 <= j < |products| :: j < 3 && products[j] == p;
  }

  /**
   A fresh answer names the products it left out when it compares two or more,
   comparisons are on and its retrieval did not degrade, and never otherwise.
   */
  lemma NotedExactly(ts: seq<Turn>, k: nat, p: string)
    requires k < |ts| && AnswersAfresh(ts, k)
    ensures var t, (found, reply) := ts[k], Basis(ts[k]);
      && ReplyTo(ts, k).Ok? && GroundsIn(reply, found.hits)
      && (p in ReplyTo(ts, k).value.content.note <==>
            && |t.products| >= 2 && t.settings.comparison && found.degrade == NoDegrade
            && LeftOut(t.products, found.hits, Validate(reply.refusal, reply.pieces, |found.hits|).singly, p))
  {
    var t, a := ts[k], Settled(ts[k]);
    BasisIsSettled(ts, k);
    FreshAnswerCites(t);
    NotedAreLeftOut(t.products, a.hits, a.verdict.singly, p);
  }

  /** A repeated answer says it comes from the cache; nothing else of it is made anew. */
  lemma RepeatedAnswersSaySo(ts: seq<Turn>, k: nat)
    requires k < |ts| && ReachesTheCache(ts[k]) && Repeats(ts, k)
    ensures var r := ReplyTo(ts, k);
      && r.Ok? && r.value.cacheHit && r.value.strategy == FromCache && !r.value.noAnswer && !r.value.unsupported
      && r.value.content == CacheOf(ts[..k])[Key(Fields(ts[k]))].content
  {
  }

  // Whose answer is repeated

  /** The same query and products, over the same index, with the same embedder and the same policy, comparisons included. */
  predicate SameQuestion(t: Turn, u: Turn) {
    && t.query == u.query && t.area == u.area && t.sourceHash == u.sourceHash && t.settings.embedder == u.settings.embedder
    && (t.settings.policy + if t.settings.comparison then "+cmp" else "")
       == (u.settings.policy + if u.settings.comparison then "+cmp" else "")
  }

  lemma SameFields(t: Turn, u: Turn)
    ensures Fields(t) == Fields(u) <==> SameQuestion(t, u)
  {
  }

  /**
   Over every run a repeated answer was made earlier, afresh and undegraded, for
   this very question; no later such answer is passed over, and its time is not up.
   */
  lemma RepeatedExactly(ts: seq<Turn>, k: nat)
    requires AllSeparable(ts) && k < |ts| && ReachesTheCache(ts[k]) && ReplyTo(ts, k).Ok? && ReplyTo(ts, k).value.cacheHit
    ensures exists j: nat | j < k :: MadeFor(ts, j, k) && IsRepeated(ts, j, k)
  {
    HitIsTheLastFrozenAnswer(ts, k);
    var f, before := Fields(ts[k]), ts[..k];
    var j := LastFrozen(before, f).value;
    FrozenEarlier(ts, k);
    forall i: nat | i < k ensures MadeFor(ts, i, k) <==> FrozeUnder(before, i, f) {
      SameFields(ts[i], ts[k]);
      FrozenExactly(ts, i);
    }
    forall i: nat | j < i < k ensures !MadeFor(ts, i, k) {
      NothingFrozenLater(before, f, i);
    }
    assert MadeFor(ts, j, k) && IsRepeated(ts, j, k);
  }

  /** Question `k` gets the answer of `j` in time, and no later one is passed over. */
  predicate IsRepeated(ts: seq<Turn>, j: nat, k: nat)
    requires j < k < |ts|
  {
    && ReplyTo(ts, k).Ok? && ReplyTo(ts, j).Ok? && ReplyTo(ts, k).value.content == ReplyTo(ts, j).value.content
    && ts[k].askedAt < ts[j].answeredAt + ts[j].settings.ttl
    && forall i | j < i < k :: !MadeFor(ts, i, k)
  }

  predicate MadeFor(ts: seq<Turn>, j: nat, k: nat)
    requires j < |ts| && k < |ts|
  {
    AnswersAfresh(ts, j) && Basis(ts[j]).0.degrade == NoDegrade && SameQuestion(ts[j], ts[k])
  }

  /** Every reply is filed under the question's own intent, and every fresh answer under its index and policy. */
  lemma RepliesAreFiled(ts: seq<Turn>, k: nat)
    requires k < |ts| && ReplyTo(ts, k).Ok?
    ensures var t, r := ts[k], ReplyTo(ts, k).value;
      && (r.intent == if t.greeting then Greeting else if OffTopicQuestion(t) then OffTopic else t.intent)
      && (AnswersAfresh(ts, k) ==>
            && r.content.sourceHash == t.sourceHash
            && r.content.policy == t.settings.policy + if t.settings.comparison then "+cmp" else "")
  {
    if AnswersAfresh(ts, k) {
      BasisIsSettled(ts, k);
      FreshAnswerCites(ts[k]);
    }
  }
}
