/**
 * Properties of the `predict` memo table: repeated requests, the reply without
 * memoisation, and what the choice of cache key does to it.
 */
module CacheProperties {
  import opened Wrappers
  import opened Scoring
  import opened Search
  import opened Service
  import Scenarios

  /** The reply `predict` would give with nothing memoised. */
  function FreshReply<V>(isWord: char -> bool, e: Embedder<V>, fmt: Format,
                         text: string, query: string, threshold: real): Result<string, SearchError>
  {
    if text == [] then Success(NoTextReply)
    else
      match WebSearch(isWord, e, text, DefaultQuery(text, query), threshold, DefaultContextChars, DefaultAlpha)
      case Failure(err) => Failure(err)
      case Success(v) => Success(ReplyText(fmt, v, threshold))
  }

  /** On an empty cache `predict` computes the fresh reply, whatever the key. */
  lemma EmptyCacheIsFresh<V, K>(key: (string, string, real) -> K, isWord: char -> bool, e: Embedder<V>,
                                     fmt: Format, m: SemanticModel<K>, text: string, query: string,
                                     threshold: real)
    requires m.cache == map[]
    ensures PredictWith(key, isWord, e, fmt, m, text, query, threshold).reply
            == FreshReply(isWord, e, fmt, text, query, threshold)
  {
  }

  /**
   * Asking the same question twice gives the same reply and leaves the state as the
   * first call left it; once a reply is stored, the second call runs no search.
   */
  lemma PredictTwice<V, K>(key: (string, string, real) -> K, isWord: char -> bool, e: Embedder<V>,
                               fmt: Format, m: SemanticModel<K>, text: string, query: string,
                               threshold: real)
    ensures var r1 := PredictWith(key, isWord, e, fmt, m, text, query, threshold);
      var r2 := PredictWith(key, isWord, e, fmt, r1.model, text, query, threshold);
      && r2.reply == r1.reply
      && r2.model == r1.model
      && (r1.reply.Success? ==> !r2.searched)
  {
  }

  /** Serving any series of requests from a new `SemanticModel` constructs the sentence model at most once. */
  lemma {:induction false} ServeBuildsAtMostOnce<V, K>(key: (string, string, real) -> K, isWord: char -> bool,
                                                       e: Embedder<V>, fmt: Format, m: SemanticModel<K>,
                                                       reqs: seq<Request>)
    requires BuiltAtMostOnce(m.engine)
    ensures BuiltAtMostOnce(Serve(key, isWord, e, fmt, m, reqs).engine)
    ensures m == NewModel() ==> Serve(key, isWord, e, fmt, m, reqs).engine.loads <= 1
    decreases |reqs|
  {
    if |reqs| > 0 {
      var a := PredictWith(key, isWord, e, fmt, m, reqs[0].text, reqs[0].query, reqs[0].threshold);
      ServeBuildsAtMostOnce(key, isWord, e, fmt, a.model, reqs[1..]);
    }
  }

  /** Every stored reply is the fresh reply of every request whose key it is stored under. */
  ghost predicate Coherent<V, K>(key: (string, string, real) -> K, isWord: char -> bool, e: Embedder<V>,
                                     fmt: Format, cache: map<K, string>)
  {
    forall t, q, h :: key(t, q, h) in cache ==>
      FreshReply(isWord, e, fmt, t, q, h) == Success(cache[key(t, q, h)])
  }

  ghost predicate Injective<K>(key: (string, string, real) -> K)
  {
    forall t, q, h, t', q', h' :: key(t, q, h) == key(t', q', h') ==> t == t' && q == q' && h == h'
  }

  /**
   * With an injective key the cache is invisible: each reply equals the fresh reply,
   * and the cache stays coherent.
   */
  lemma InjectiveKeyTransparent<V, K>(key: (string, string, real) -> K, isWord: char -> bool,
                                          e: Embedder<V>, fmt: Format, m: SemanticModel<K>,
                                          text: string, query: string, threshold: real)
    requires Injective(key)
    requires Coherent(key, isWord, e, fmt, m.cache)
    ensures PredictWith(key, isWord, e, fmt, m, text, query, threshold).reply
            == FreshReply(isWord, e, fmt, text, query, threshold)
    ensures Coherent(key, isWord, e, fmt, PredictWith(key, isWord, e, fmt, m, text, query, threshold).model.cache)
  {
    var r := PredictWith(key, isWord, e, fmt, m, text, query, threshold);
    if text != [] {
      var q := DefaultQuery(text, query);
      var k := key(text, q, threshold);
      assert FreshReply(isWord, e, fmt, text, q, threshold) == FreshReply(isWord, e, fmt, text, query, threshold);
      if k in m.cache {
        assert FreshReply(isWord, e, fmt, text, q, threshold) == Success(m.cache[k]);
      } else if r.reply.Success? {
        forall t, q', h | key(t, q', h) in r.model.cache
          ensures FreshReply(isWord, e, fmt, t, q', h) == Success(r.model.cache[key(t, q', h)])
        {
          if key(t, q', h) == k {
            assert t == text && q' == q && h == threshold;
          }
        }
      }
    }
  }

  /** The corrected `predict`: a triple-keyed cache never changes a reply. */
  lemma PredictByTripleTransparent<V>(isWord: char -> bool, e: Embedder<V>, fmt: Format,
                                      m: SemanticModel<(string, string, real)>,
                                      text: string, query: string, threshold: real)
    requires Coherent(TripleKey, isWord, e, fmt, m.cache)
    ensures PredictByTriple(isWord, e, fmt, m, text, query, threshold).reply
            == FreshReply(isWord, e, fmt, text, query, threshold)
    ensures Coherent(TripleKey, isWord, e, fmt, PredictByTriple(isWord, e, fmt, m, text, query, threshold).model.cache)
  {
    InjectiveKeyTransparent(TripleKey, isWord, e, fmt, m, text, query, threshold);
  }

  /** The f-string key of `predict` is not injective: text and query containing `||` can produce the same key. */
  lemma StringKeyCollides(fmt: Format, threshold: real)
    ensures StringKey(fmt, "a||b", "c", threshold) == StringKey(fmt, "a", "b||c", threshold)
  {
  }

  predicate IsLowerLetter(c: char) { 'a' <= c <= 'z' }

  /** A stand-in similarity that only likes the query "c". */
  function LikesC(query: string, text: string): real { if query == "c" then 1.0 else 0.0 }

  const LikesCEmbedder: Embedder<string> := Embedder(Scenarios.Identity, LikesC)

  /** `predict("a||b", "c")` on a fresh model. */
  function FirstAnswer(fmt: Format): Answer<string>
  {
    Predict(IsLowerLetter, LikesCEmbedder, fmt, NewModel<string>(), "a||b", "c", DefaultThreshold)
  }

  /** Searched freshly, the first request finds a candidate. */
  lemma FirstSearchFound()
    ensures var w := WebSearch(IsLowerLetter, LikesCEmbedder, "a||b", "c", DefaultThreshold,
                               DefaultContextChars, DefaultAlpha);
      w.Success? && w.value.Found?
  {
    var ev := Evaluate(IsLowerLetter, LikesCEmbedder, "a||b", "c", DefaultContextChars, DefaultAlpha);
    assert IsLowerLetter("a||b"[0]);
    assert ev.Some? && ev.value.final == 1.0;
  }

  /** The first request is answered by a search whose reply reports a match, and the reply is stored. */
  lemma FirstRequestMatches(fmt: Format)
    ensures FirstAnswer(fmt).reply.Success?
    ensures FirstAnswer(fmt).reply.value[12] == FoundPrefix[12]
    ensures StringKey(fmt, "a||b", "c", DefaultThreshold) in FirstAnswer(fmt).model.cache
    ensures FirstAnswer(fmt).model.cache[StringKey(fmt, "a||b", "c", DefaultThreshold)]
            == FirstAnswer(fmt).reply.value
  {
    var w := WebSearch(IsLowerLetter, LikesCEmbedder, "a||b", "c", DefaultThreshold, DefaultContextChars, DefaultAlpha);
    FirstSearchFound();
    assert ReplyText(fmt, w.value, DefaultThreshold)[12] == FoundPrefix[12];
    assert DefaultQuery("a||b", "c") == "c";
    var k := StringKey(fmt, "a||b", "c", DefaultThreshold);
    assert StringKeyOf(fmt)("a||b", "c", DefaultThreshold) == k;
    var m0 := NewModel<string>();
    assert k !in m0.cache;
    var r := PredictWith(StringKeyOf(fmt), IsLowerLetter, LikesCEmbedder, fmt, m0, "a||b", "c", DefaultThreshold);
    assert r.reply == Success(ReplyText(fmt, w.value, DefaultThreshold));
    assert r == FirstAnswer(fmt);
  }

  /** Asked freshly, the second request reports no match. */
  lemma SecondRequestFresh(fmt: Format)
    ensures FreshReply(IsLowerLetter, LikesCEmbedder, fmt, "a", "b||c", DefaultThreshold).Success?
    ensures FreshReply(IsLowerLetter, LikesCEmbedder, fmt, "a", "b||c", DefaultThreshold).value[12]
            == NotFoundPrefix[12]
  {
    var e := LikesCEmbedder;
    var ev := Evaluate(IsLowerLetter, e, "a", "b||c", DefaultContextChars, DefaultAlpha);
    assert IsLowerLetter("a"[0]);
    assert ev.Some? && ev.value.final == 0.0;
  }

  /**
   * After `predict("a||b", "c")`, the request `predict("a", "b||c")` is answered from
   * the cache with the first request's reply, which differs from its own fresh reply.
   */
  lemma StringKeyServesStaleReply(fmt: Format)
    ensures var r2 := Predict(IsLowerLetter, LikesCEmbedder, fmt, FirstAnswer(fmt).model, "a", "b||c", DefaultThreshold);
      && r2.reply == FirstAnswer(fmt).reply
      && !r2.searched
      && r2.reply != FreshReply(IsLowerLetter, LikesCEmbedder, fmt, "a", "b||c", DefaultThreshold)
  {
    var r1 := FirstAnswer(fmt);
    FirstRequestMatches(fmt);
    StringKeyCollides(fmt, DefaultThreshold);
    assert DefaultQuery("a", "b||c") == "b||c";
    var k := StringKey(fmt, "a", "b||c", DefaultThreshold);
    assert k in r1.model.cache && r1.model.cache[k] == r1.reply.value;
    var r2 := Predict(IsLowerLetter, LikesCEmbedder, fmt, r1.model, "a", "b||c", DefaultThreshold);
    assert r2.reply == r1.reply && !r2.searched;
    SecondRequestFresh(fmt);
    assert FoundPrefix[12] != NotFoundPrefix[12];
    assert r2.reply.value[12] != FreshReply(IsLowerLetter, LikesCEmbedder, fmt, "a", "b||c", DefaultThreshold).value[12];
  }
}
