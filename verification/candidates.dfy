/**
 * Candidate generation of `semantic_search`: every token, then every pair of
 * adjacent tokens, then every triple, each class left to right. A k-token
 * candidate covers the span from its first token's start to its last token's
 * end, and its text is the token texts joined by single spaces.
 */
module CandidateGenerator {
  import opened Tokenizer
  import opened Text

  /** The token texts joined by single spaces (the f-strings `'{w1} {w2}'`, `'{w1} {w2} {w3}'`). */
  function JoinWords(ts: seq<Span>): string
    requires |ts| > 0
  {
    if |ts| == 1 then ts[0].text else JoinWords(ts[..|ts| - 1]) + " " + ts[|ts| - 1].text
  }

  /** The candidate made of the `k` tokens starting at token `i`. */
  function NGram(toks: seq<Span>, i: nat, k: nat): Span
    requires 1 <= k && i + k <= |toks|
  {
    Span(JoinWords(toks[i..i + k]), toks[i].start, toks[i + k - 1].end)
  }

  /** The `k`-token candidates for start positions `i`, `i + 1`, ... (one `for` loop of `semantic_search`). */
  function Layer(toks: seq<Span>, k: nat, i: nat): (cs: seq<Span>)
    requires 1 <= k
    ensures |cs| == Max(0, |toks| - k + 1 - i)
    ensures forall j :: 0 <= j < |cs| ==> i + j + k <= |toks| && cs[j] == NGram(toks, i + j, k)
    decreases |toks| - i
  {
    if i + k > |toks| then [] else [NGram(toks, i, k)] + Layer(toks, k, i + 1)
  }

  /** The candidate list: unigrams, then bigrams, then trigrams. */
  function Candidates(toks: seq<Span>): (cs: seq<Span>)
    ensures |cs| == |toks| + Max(0, |toks| - 1) + Max(0, |toks| - 2)
    ensures forall i :: 0 <= i < |toks| ==> cs[i] == NGram(toks, i, 1)
    ensures forall i :: 0 <= i < |toks| - 1 ==> cs[|toks| + i] == NGram(toks, i, 2)
    ensures forall i :: 0 <= i < |toks| - 2 ==> cs[|toks| + (|toks| - 1) + i] == NGram(toks, i, 3)
  {
    Layer(toks, 1, 0) + Layer(toks, 2, 0) + Layer(toks, 3, 0)
  }

  /** A unigram is the token itself; bigram and trigram texts are the f-strings of `semantic_search`. */
  lemma NGramTexts(toks: seq<Span>, i: nat)
    ensures i + 1 <= |toks| ==> NGram(toks, i, 1) == toks[i]
    ensures i + 2 <= |toks| ==>
      NGram(toks, i, 2) == Span(toks[i].text + " " + toks[i + 1].text, toks[i].start, toks[i + 1].end)
    ensures i + 3 <= |toks| ==>
      NGram(toks, i, 3) == Span(toks[i].text + " " + toks[i + 1].text + " " + toks[i + 2].text,
                                toks[i].start, toks[i + 2].end)
  {
    if i + 3 <= |toks| {
      assert toks[i..i + 3][..2] == toks[i..i + 2];
    }
    if i + 2 <= |toks| {
      assert toks[i..i + 2][..1] == toks[i..i + 1];
    }
  }

  /** Every member of a layer is the `k`-token candidate at some position. */
  lemma LayerShape(toks: seq<Span>, k: nat, c: Span)
    requires 1 <= k && c in Layer(toks, k, 0)
    ensures exists i: nat :: i + k <= |toks| && c == NGram(toks, i, k)
  {
    var cs := Layer(toks, k, 0);
    var j: nat :| j < |cs| && cs[j] == c;
    assert j + k <= |toks| && c == NGram(toks, j, k);
  }

  /** Every candidate is the run of 1, 2 or 3 adjacent tokens at some position. */
  lemma CandidateShape(toks: seq<Span>, c: Span)
    requires c in Candidates(toks)
    ensures exists i: nat, k: nat :: 1 <= k <= 3 && i + k <= |toks| && c == NGram(toks, i, k)
  {
    var k: nat;
    if c in Layer(toks, 1, 0) {
      k := 1;
    } else if c in Layer(toks, 2, 0) {
      k := 2;
    } else {
      assert c in Layer(toks, 3, 0);
      k := 3;
    }
    LayerShape(toks, k, c);
    var i: nat :| i + k <= |toks| && c == NGram(toks, i, k);
  }

  /** The tokens a k-token candidate is built from lie strictly inside its span, in order. */
  lemma NGramSpan(isWord: char -> bool, doc: string, toks: seq<Span>, i: nat, k: nat)
    requires IsTokenization(isWord, doc, toks)
    requires 1 <= k && i + k <= |toks|
    ensures var c := NGram(toks, i, k);
      0 <= c.start < c.end <= |doc|
    ensures var c := NGram(toks, i, k);
      forall t :: i <= t < i + k ==> c.start <= toks[t].start && toks[t].end <= c.end
    ensures var c := NGram(toks, i, k);
      forall t :: 0 <= t < |toks| && (t < i || i + k <= t) ==> toks[t].end < c.start || c.end < toks[t].start
  {
    var last := i + k - 1;
    assert IsToken(isWord, doc, toks[i]) && IsToken(isWord, doc, toks[last]);
    forall t | i <= t < i + k
      ensures toks[i].start <= toks[t].start && toks[t].end <= toks[last].end
    {
      assert IsToken(isWord, doc, toks[t]);
    }
    forall t | 0 <= t < |toks| && (t < i || i + k <= t)
      ensures toks[t].end < toks[i].start || toks[last].end < toks[t].start
    {
    }
  }

  /**
   * Every candidate of a document is a non-empty slice of it that begins and ends
   * on a word boundary.
   */
  lemma CandidatesWithinDocument(isWord: char -> bool, doc: string, c: Span)
    requires c in Candidates(Tokenize(isWord, doc))
    ensures 0 <= c.start < c.end <= |doc|
    ensures isWord(doc[c.start]) && (c.start == 0 || !isWord(doc[c.start - 1]))
    ensures isWord(doc[c.end - 1]) && (c.end == |doc| || !isWord(doc[c.end]))
  {
    var toks := Tokenize(isWord, doc);
    TokenizeSound(isWord, doc);
    CandidateShape(toks, c);
    var i: nat, k: nat :| 1 <= k <= 3 && i + k <= |toks| && c == NGram(toks, i, k);
    NGramSpan(isWord, doc, toks, i, k);
    assert IsToken(isWord, doc, toks[i]) && IsToken(isWord, doc, toks[i + k - 1]);
  }

  /** There are no candidates exactly when the document has no word character. */
  lemma NoCandidatesIffNoWordChar(isWord: char -> bool, doc: string)
    ensures Candidates(Tokenize(isWord, doc)) == [] <==> forall p :: 0 <= p < |doc| ==> !isWord(doc[p])
  {
    NoTokensIffNoWordChar(isWord, doc);
  }
}
