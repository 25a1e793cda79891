/** Properties relating calls of `semantic_search`: threshold monotonicity, agreement of the two front ends, scenarios. */
module SearchProperties {
  import opened Scoring
  import opened Search

  /** Whatever the threshold, the verdict is decided by one threshold-independent blended score. */
  lemma CliAcceptIff<V>(isWord: char -> bool, e: Embedder<V>, eng: Engine, doc: string, query: string,
                        threshold: real, contextChars: int, alpha: real)
    ensures var ev := Evaluate(isWord, e, doc, query, contextChars, alpha);
      CliSearch(isWord, e, eng, doc, query, threshold, contextChars, alpha).verdict.Found?
      <==> doc != [] && query != [] && ev.Some? && ev.value.final >= threshold
  {
  }

  /** Raising the threshold can only turn a returned candidate into `None`, never the reverse. */
  lemma CliThresholdMonotone<V>(isWord: char -> bool, e: Embedder<V>, eng: Engine, doc: string, query: string,
                                low: real, high: real, contextChars: int, alpha: real)
    requires low <= high
    ensures var rHigh := CliSearch(isWord, e, eng, doc, query, high, contextChars, alpha);
      var rLow := CliSearch(isWord, e, eng, doc, query, low, contextChars, alpha);
      rHigh.verdict.Found? ==> rLow == rHigh
  {
  }

  /** The same monotonicity for the web variant. */
  lemma WebThresholdMonotone<V>(isWord: char -> bool, e: Embedder<V>, doc: string, query: string,
                                low: real, high: real, contextChars: int, alpha: real)
    requires low <= high
    ensures var rHigh := WebSearch(isWord, e, doc, query, high, contextChars, alpha);
      var rLow := WebSearch(isWord, e, doc, query, low, contextChars, alpha);
      rHigh.Success? && rHigh.value.Found? ==> rLow == rHigh
  {
  }

  /**
   * On non-empty inputs the two front ends agree whenever the document has a word
   * character; otherwise the command line answers `None` and the web variant raises.
   */
  lemma CliWebAgree<V>(isWord: char -> bool, e: Embedder<V>, eng: Engine, doc: string, query: string,
                       threshold: real, contextChars: int, alpha: real)
    requires doc != [] && query != []
    ensures var cli := CliSearch(isWord, e, eng, doc, query, threshold, contextChars, alpha);
      var web := WebSearch(isWord, e, doc, query, threshold, contextChars, alpha);
      && (web.Success? ==> web.value == cli.verdict)
      && (web.Failure? <==> cli.verdict == NotFound(NoCandidates))
  {
  }

  /** With a weight in [0, 1] the returned score lies between the candidate's own and its context's similarity. */
  lemma FoundScoreBetween<V>(isWord: char -> bool, e: Embedder<V>, eng: Engine, doc: string, query: string,
                             threshold: real, contextChars: int, alpha: real)
    requires 0.0 <= alpha <= 1.0
    ensures var r := CliSearch(isWord, e, eng, doc, query, threshold, contextChars, alpha);
      r.verdict.Found? ==>
        var best := r.verdict.best;
        var orig := Similarity(e, query, best.text);
        var ctx := Similarity(e, query, ContextWindow(doc, best.start, best.end, contextChars));
        (orig <= r.verdict.score <= ctx) || (ctx <= r.verdict.score <= orig)
  {
    var ev := Evaluate(isWord, e, doc, query, contextChars, alpha);
    if ev.Some? {
      BlendBetween(alpha, ev.value.original, ev.value.context);
    }
  }
}
