/** Worked examples of the command-line search on concrete documents with stand-in embedders. */
module Scenarios {
  import opened Wrappers
  import opened Text
  import opened Tokenizer
  import opened CandidateGenerator
  import opened Scoring
  import opened Search

  /** A word-character class for space-separated examples. */
  function IsLetter(c: char): bool { c != ' ' }

  /** A stand-in similarity: 1 for identical texts, 0 otherwise. */
  function Exact(a: string, b: string): real { if a == b then 1.0 else 0.0 }

  function Identity(s: string): string { s }

  const Literal: Embedder<string> := Embedder(Identity, Exact)

  const Doc1: string := "быстрая лиса прыгает"

  const Doc1Tokens: seq<Span> := [Span("быстрая", 0, 7), Span("лиса", 8, 12), Span("прыгает", 13, 20)]

  /** Each listed word is a maximal run of letters of the example document. */
  lemma ExampleTokensAreTokens()
    ensures forall k :: 0 <= k < |Doc1Tokens| ==> IsToken(IsLetter, Doc1, Doc1Tokens[k])
    ensures Ordered(Doc1Tokens)
  {
    var doc := Doc1;
    assert |doc| == 20;
    assert doc[0..7] == "быстрая" && doc[8..12] == "лиса" && doc[13..20] == "прыгает";
    assert doc[7] == ' ' && doc[12] == ' ';
  }

  /** Every letter of the example document lies in one of the listed words. */
  lemma ExampleTokensCover()
    ensures CoversFrom(IsLetter, Doc1, Doc1Tokens, 0)
  {
    var doc := Doc1;
    var toks := Doc1Tokens;
    assert |doc| == 20 && doc[7] == ' ' && doc[12] == ' ';
    forall p | 0 <= p < |doc| && IsLetter(doc[p])
      ensures exists k :: 0 <= k < |toks| && toks[k].start <= p < toks[k].end
    {
      if p < 7 {
        assert toks[0].start <= p < toks[0].end;
      } else if p < 12 {
        assert p != 7;
        assert toks[1].start <= p < toks[1].end;
      } else {
        assert p != 12;
        assert toks[2].start <= p < toks[2].end;
      }
    }
  }

  /** The three words of the example document, with their offsets. */
  lemma TokenizeExample()
    ensures Tokenize(IsLetter, Doc1) == [Span("быстрая", 0, 7), Span("лиса", 8, 12), Span("прыгает", 13, 20)]
  {
    ExampleTokensAreTokens();
    ExampleTokensCover();
    assert IsTokenization(IsLetter, Doc1, Doc1Tokens);
    TokenizeCharacterized(IsLetter, Doc1, Doc1Tokens);
  }

  const Doc1Candidates: seq<Span> := [
    Span("быстрая", 0, 7), Span("лиса", 8, 12), Span("прыгает", 13, 20),
    Span("быстрая лиса", 0, 12), Span("лиса прыгает", 8, 20),
    Span("быстрая лиса прыгает", 0, 20)]

  /** Among the example's candidates only "лиса" scores 1 against the query "лиса". */
  lemma ExampleScores()
    ensures IsFirstMax(Scores(Literal, "лиса", Doc1Candidates), 1)
  {
    var scores := Scores(Literal, "лиса", Doc1Candidates);
    assert scores[1] == 1.0;
    assert forall j :: 0 <= j < 6 && j != 1 ==> scores[j] == 0.0;
  }

  /** Ten characters around "лиса" reach both ends of the example document. */
  lemma ExampleWindow()
    ensures ContextWindow(Doc1, 8, 12, DefaultContextChars) == Doc1
  {
    assert |Doc1| == 20;
    assert ContextBounds(|Doc1|, 8, 12, DefaultContextChars) == (0, 20);
    assert PySlice(Doc1, 0, 20) == Doc1[0..20] == Doc1;
  }

  /** The evaluation step picks "лиса", the second candidate. */
  lemma ExampleBest()
    ensures var ev := Evaluate(IsLetter, Literal, Doc1, "лиса", DefaultContextChars, DefaultAlpha);
      ev.Some? && ev.value.index == 1 && ev.value.best == Span("лиса", 8, 12)
  {
    ThreeWordCandidates();
    ExampleScores();
    var ev := Evaluate(IsLetter, Literal, Doc1, "лиса", DefaultContextChars, DefaultAlpha);
    assert IsLetter(Doc1[0]);
    FirstMaxUnique(Scores(Literal, "лиса", Doc1Candidates), 1, ev.value.index);
  }

  /** The evaluation step picks "лиса"; its window is the whole document, scoring 0. */
  lemma ExampleEvaluation()
    ensures Evaluate(IsLetter, Literal, Doc1, "лиса", DefaultContextChars, DefaultAlpha)
      == Some(Evaluation(Span("лиса", 8, 12), 1, 1.0, Doc1, 0.0, 0.8))
  {
    ExampleBest();
    ExampleWindow();
    var ev := Evaluate(IsLetter, Literal, Doc1, "лиса", DefaultContextChars, DefaultAlpha);
    assert ev.value.window == Doc1;
  }

  /** Offsets 8 and 12 print as "8 - 12". */
  lemma ExamplePosition()
    ensures PositionString(8, 12) == "8 - 12"
  {
    assert NatToString(8) == "8";
    assert NatToString(12) == "12";
  }

  /**
   * Searching "лиса" in "быстрая лиса прыгает" returns that word at offsets 8 - 12:
   * its own similarity is 1, its context window is the whole document.
   */
  lemma ExactWordFound()
    ensures CliSearch(IsLetter, Literal, NewEngine(DefaultModelName), Doc1, "лиса", 0.6, DefaultContextChars, DefaultAlpha).verdict
      == Found(Span("лиса", 8, 12), "8 - 12", 0.8)
  {
    ExampleEvaluation();
    ExamplePosition();
    var ev := Evaluation(Span("лиса", 8, 12), 1, 1.0, Doc1, 0.0, 0.8);
    assert Decide(ev, 0.6) == Found(Span("лиса", 8, 12), "8 - 12", 0.8);
  }

  /** Any three tokens give 3 unigrams, 2 bigrams and 1 trigram, in that order. */
  lemma ThreeTokenCandidates(toks: seq<Span>)
    requires |toks| == 3
    ensures Candidates(toks) == [
      toks[0], toks[1], toks[2],
      Span(toks[0].text + " " + toks[1].text, toks[0].start, toks[1].end),
      Span(toks[1].text + " " + toks[2].text, toks[1].start, toks[2].end),
      Span(toks[0].text + " " + toks[1].text + " " + toks[2].text, toks[0].start, toks[2].end)]
  {
    NGramTexts(toks, 0);
    NGramTexts(toks, 1);
    NGramTexts(toks, 2);
  }

  lemma JoinedExampleTexts()
    ensures "быстрая" + " " + "лиса" == "быстрая лиса"
    ensures "лиса" + " " + "прыгает" == "лиса прыгает"
    ensures "быстрая" + " " + "лиса" + " " + "прыгает" == "быстрая лиса прыгает"
  {
  }

  /** The example document's candidates, with their texts and offsets. */
  lemma ThreeWordCandidates()
    ensures Candidates(Tokenize(IsLetter, Doc1)) == Doc1Candidates
  {
    TokenizeExample();
    ThreeTokenCandidates(Tokenize(IsLetter, Doc1));
    JoinedExampleTexts();
  }

  /** A stand-in similarity that rates every pair 0.5. */
  function Half(a: string, b: string): real { 0.5 }

  /** With every similarity 0.5 the blended score is 0.5, below a threshold of 0.99999. */
  lemma BelowThresholdRejected()
    ensures CliSearch(IsLetter, Embedder(Identity, Half), NewEngine(DefaultModelName), "x", "y", 0.99999,
                      DefaultContextChars, DefaultAlpha).verdict == NotFound(BelowThreshold)
  {
    var ev := Evaluate(IsLetter, Embedder(Identity, Half), "x", "y", DefaultContextChars, DefaultAlpha);
    assert IsLetter("x"[0]);
    assert ev.value.final == 0.5;
  }
}
