/**
 * `SemanticModel.semantic_search` in its two variants: the command-line one
 * (input guards, lazy model load, empty-candidate guard) and the web one (no
 * guards; an empty candidate list makes the scoring step raise). Both share the
 * tokenizer, candidate generator and scoring steps.
 */
module Search {
  import opened Wrappers
  import opened Text
  import opened Tokenizer
  import opened CandidateGenerator
  import opened Scoring

  /** Default keyword arguments of `semantic_search`. */
  const DefaultThreshold: real := 0.65
  const DefaultContextChars: int := 10
  const DefaultAlpha: real := 0.8

  const DefaultModelName: string := "sberbank-ai/sbert_large_nlu_ru"

  /** The model slot of `SemanticModel`: whether `self.model` is set, and how often it was built. */
  datatype Engine = Engine(modelName: string, loaded: bool, loads: nat)

  /** `SemanticModel.__init__`: nothing loaded yet. */
  function NewEngine(modelName: string): (e: Engine)
    ensures BuiltAtMostOnce(e) && !e.loaded && e.modelName == modelName
  {
    Engine(modelName, false, 0)
  }

  /** The model has been constructed exactly once if loaded, never otherwise. */
  ghost predicate BuiltAtMostOnce(e: Engine)
  {
    e.loads == if e.loaded then 1 else 0
  }

  /** `SemanticModel.load`: constructs the model only while `self.model is None`. */
  function Load(e: Engine): (r: Engine)
    ensures r.loaded && r.modelName == e.modelName
    ensures BuiltAtMostOnce(e) ==> BuiltAtMostOnce(r)
    ensures e.loaded ==> r == e
  {
    if e.loaded then e else e.(loaded := true, loads := e.loads + 1)
  }

  /** Loading twice is loading once: the second call constructs nothing. */
  lemma LoadIdempotent(e: Engine)
    ensures Load(Load(e)) == Load(e)
    ensures Load(e).loads == e.loads + (if e.loaded then 0 else 1)
  {
  }

  /** The candidate texts handed to the encoder in one batch. */
  function Texts(cs: seq<Span>): seq<string>
  {
    seq(|cs|, i requires 0 <= i < |cs| => cs[i].text)
  }

  /** What the scoring steps compute for the best candidate, before the threshold is applied. */
  datatype Evaluation = Evaluation(
    best: Span, index: nat, original: real, window: string, context: real, final: real)

  /**
   * Scores every candidate, picks the first best one, scores its context window and
   * blends the two; `None` when the document has no candidates.
   */
  function Evaluate<V>(isWord: char -> bool, e: Embedder<V>, doc: string, query: string,
                       contextChars: int, alpha: real): (r: Option<Evaluation>)
    ensures r.None? <==> forall p :: 0 <= p < |doc| ==> !isWord(doc[p])
    ensures r.Some? ==>
      var cs := Candidates(Tokenize(isWord, doc));
      var ev := r.value;
      && ev.index < |cs| && ev.best == cs[ev.index]
      && IsFirstMax(Scores(e, query, cs), ev.index)
      && ev.original == Similarity(e, query, ev.best.text)
      && ev.window == ContextWindow(doc, ev.best.start, ev.best.end, contextChars)
      && ev.context == Similarity(e, query, ev.window)
      && ev.final == Blend(alpha, ev.original, ev.context)
  {
    NoCandidatesIffNoWordChar(isWord, doc);
    var cs := Candidates(Tokenize(isWord, doc));
    if |cs| == 0 then None
    else
      var scores := Scores(e, query, cs);
      var k := ArgMax(scores);
      var best := cs[k];
      var window := ContextWindow(doc, best.start, best.end, contextChars);
      var context := Similarity(e, query, window);
      Some(Evaluation(best, k, scores[k], window, context, Blend(alpha, scores[k], context)))
  }

  /** Why no candidate was returned; `semantic_search` logs each differently but returns `None` for all. */
  datatype Reason = EmptyInput | NoCandidates | BelowThreshold

  /** `(best_candidate, position_str, final_score)` or `None`. */
  datatype Verdict = Found(best: Span, position: string, score: real) | NotFound(reason: Reason)

  /** The accept step: a candidate is returned iff its blended score reaches the threshold. */
  function Decide(ev: Evaluation, threshold: real): (v: Verdict)
    ensures v.Found? <==> ev.final >= threshold
    ensures v.Found? ==> v.best == ev.best && v.score == ev.final
    ensures v.Found? ==> ParsePosition(v.position) == Some((ev.best.start, ev.best.end))
    ensures v.NotFound? ==> v.reason == BelowThreshold
  {
    PositionRoundTrip(ev.best.start, ev.best.end);
    if ev.final >= threshold then Found(ev.best, PositionString(ev.best.start, ev.best.end), ev.final)
    else NotFound(BelowThreshold)
  }

  /** One call to `self.model.encode`: a single text or a batch. */
  datatype EncodeCall = EncodeOne(text: string) | EncodeBatch(texts: seq<string>)

  /** Result of the command-line search with the model state after it and the encoder calls made. */
  datatype CliRun = CliRun(verdict: Verdict, engine: Engine, encoded: seq<EncodeCall>)

  /** `semantic_search` of the command-line front end. */
  function CliSearch<V>(isWord: char -> bool, e: Embedder<V>, eng: Engine, doc: string, query: string,
                        threshold: real, contextChars: int, alpha: real): (r: CliRun)
    ensures r.verdict == NotFound(EmptyInput) <==> doc == [] || query == []
    ensures doc == [] || query == [] ==> r.engine == eng && r.encoded == []
    ensures doc != [] && query != [] ==>
      r.engine == Load(eng) && |r.encoded| > 0 && r.encoded[0] == EncodeOne(query)
    ensures r.verdict == NotFound(NoCandidates) <==>
      doc != [] && query != [] && forall p :: 0 <= p < |doc| ==> !isWord(doc[p])
    ensures r.verdict == NotFound(NoCandidates) ==> r.encoded == [EncodeOne(query)]
    ensures BuiltAtMostOnce(eng) ==> BuiltAtMostOnce(r.engine)
    ensures r.verdict.Found? ==>
      var cs := Candidates(Tokenize(isWord, doc));
      var best := r.verdict.best;
      && r.verdict.score >= threshold
      && best in cs
      && ParsePosition(r.verdict.position) == Some((best.start, best.end))
      && (forall c :: c in cs ==> Similarity(e, query, c.text) <= Similarity(e, query, best.text))
      && r.encoded == [EncodeOne(query), EncodeBatch(Texts(cs)),
                       EncodeOne(ContextWindow(doc, best.start, best.end, contextChars))]
  {
    if doc == [] || query == [] then CliRun(NotFound(EmptyInput), eng, [])
    else
      var loaded := Load(eng);
      var cs := Candidates(Tokenize(isWord, doc));
      match Evaluate(isWord, e, doc, query, contextChars, alpha)
      case None => CliRun(NotFound(NoCandidates), loaded, [EncodeOne(query)])
      case Some(ev) =>
        var calls := [EncodeOne(query), EncodeBatch(Texts(cs)), EncodeOne(ev.window)];
        var scores := Scores(e, query, cs);
        assert forall c :: c in cs ==> Similarity(e, query, c.text) <= Similarity(e, query, ev.best.text) by {
          forall c | c in cs
            ensures Similarity(e, query, c.text) <= Similarity(e, query, ev.best.text)
          {
            var j :| 0 <= j < |cs| && cs[j] == c;
            assert scores[j] <= scores[ev.index];
          }
        }
        CliRun(Decide(ev, threshold), loaded, calls)
  }

  /**
   * The exception the web `semantic_search` raises when there are no candidates:
   * `cosine_similarity` rejects the empty batch of candidate embeddings.
   */
  datatype SearchError = NoCandidatesToScore

  /** `semantic_search` of the web front end: no input guards, no empty-candidate guard. */
  function WebSearch<V>(isWord: char -> bool, e: Embedder<V>, doc: string, query: string,
                        threshold: real, contextChars: int, alpha: real): (r: Result<Verdict, SearchError>)
    ensures r.Failure? <==> forall p :: 0 <= p < |doc| ==> !isWord(doc[p])
    ensures r.Success? ==> r.value.Found? || r.value == NotFound(BelowThreshold)
    ensures r.Success? && r.value.Found? ==>
      r.value.score >= threshold && r.value.best in Candidates(Tokenize(isWord, doc))
  {
    match Evaluate(isWord, e, doc, query, contextChars, alpha)
    case None => Failure(NoCandidatesToScore)
    case Some(ev) => Success(Decide(ev, threshold))
  }

  /** A call a client makes on one `SemanticModel` of the command-line front end. */
  datatype Call = LoadCall | SearchCall(doc: string, query: string, threshold: real)

  /** The model state after making `calls` in order, starting from `eng`. */
  function Replay<V>(isWord: char -> bool, e: Embedder<V>, eng: Engine, calls: seq<Call>,
                     contextChars: int, alpha: real): (r: Engine)
    ensures r.modelName == eng.modelName
    ensures eng.loaded ==> r.loaded
    decreases |calls|
  {
    if |calls| == 0 then eng
    else
      var next := match calls[0]
        case LoadCall => Load(eng)
        case SearchCall(doc, query, threshold) =>
          CliSearch(isWord, e, eng, doc, query, threshold, contextChars, alpha).engine;
      Replay(isWord, e, next, calls[1..], contextChars, alpha)
  }

  /** Whatever calls follow, a model that was built at most once stays so. */
  lemma {:induction false} ReplayBuildsAtMostOnce<V>(isWord: char -> bool, e: Embedder<V>, eng: Engine,
                                                     calls: seq<Call>, contextChars: int, alpha: real)
    requires BuiltAtMostOnce(eng)
    ensures BuiltAtMostOnce(Replay(isWord, e, eng, calls, contextChars, alpha))
    decreases |calls|
  {
    if |calls| > 0 {
      var next := match calls[0]
        case LoadCall => Load(eng)
        case SearchCall(doc, query, threshold) =>
          CliSearch(isWord, e, eng, doc, query, threshold, contextChars, alpha).engine;
      ReplayBuildsAtMostOnce(isWord, e, next, calls[1..], contextChars, alpha);
    }
  }

  /** Starting from a new `SemanticModel`, the sentence model is constructed at most once. */
  lemma NewEngineBuildsAtMostOnce<V>(isWord: char -> bool, e: Embedder<V>, modelName: string,
                                     calls: seq<Call>, contextChars: int, alpha: real)
    ensures Replay(isWord, e, NewEngine(modelName), calls, contextChars, alpha).loads <= 1
  {
    ReplayBuildsAtMostOnce(isWord, e, NewEngine(modelName), calls, contextChars, alpha);
  }
}
