/**
 * The tokenizer of `semantic_search`: `re.finditer(r'\w+', document)`, recording
 * each match's text and its [start, end) character offsets. The Unicode `\w`
 * class is a parameter `isWord`, so every result holds for any classification.
 */
module Tokenizer {

  /** A token or match candidate: its text and the [start, end) span it covers. */
  datatype Span = Span(text: string, start: nat, end: nat)

  /** `doc[lo..hi]` is a maximal run of word characters. */
  ghost predicate IsWordRun(isWord: char -> bool, doc: string, lo: int, hi: int)
  {
    && 0 <= lo < hi <= |doc|
    && (forall p :: lo <= p < hi ==> isWord(doc[p]))
    && (lo == 0 || !isWord(doc[lo - 1]))
    && (hi == |doc| || !isWord(doc[hi]))
  }

  /** A token is a maximal word run together with its text. */
  ghost predicate IsToken(isWord: char -> bool, doc: string, t: Span)
  {
    IsWordRun(isWord, doc, t.start, t.end) && t.text == doc[t.start..t.end]
  }

  /** Spans appear in document order and do not touch. */
  ghost predicate Ordered(ts: seq<Span>)
  {
    forall j, k :: 0 <= j < k < |ts| ==> ts[j].end < ts[k].start
  }

  /** Every word character of `doc` at or after `from` lies inside some span. */
  ghost predicate CoversFrom(isWord: char -> bool, doc: string, ts: seq<Span>, from: int)
  {
    forall p :: 0 <= p < |doc| && from <= p && isWord(doc[p]) ==>
      exists k :: 0 <= k < |ts| && ts[k].start <= p < ts[k].end
  }

  /** The declarative meaning of `re.finditer(r'\w+', doc)`. */
  ghost predicate IsTokenization(isWord: char -> bool, doc: string, ts: seq<Span>)
  {
    && (forall k :: 0 <= k < |ts| ==> IsToken(isWord, doc, ts[k]))
    && Ordered(ts)
    && CoversFrom(isWord, doc, ts, 0)
  }

  /** End of the word run that begins at `i` (the regex's greedy `\w+`). */
  function RunEnd(isWord: char -> bool, doc: string, i: nat): (j: nat)
    requires i <= |doc|
    ensures i <= j <= |doc|
    ensures forall p :: i <= p < j ==> isWord(doc[p])
    ensures j == |doc| || !isWord(doc[j])
    decreases |doc| - i
  {
    if i < |doc| && isWord(doc[i]) then RunEnd(isWord, doc, i + 1) else i
  }

  /** The matches of `\w+` found by scanning from `i`. */
  function TokensFrom(isWord: char -> bool, doc: string, i: nat): (ts: seq<Span>)
    requires i <= |doc|
    decreases |doc| - i
  {
    if i == |doc| then []
    else if !isWord(doc[i]) then TokensFrom(isWord, doc, i + 1)
    else
      var j := RunEnd(isWord, doc, i);
      [Span(doc[i..j], i, j)] + (if j == |doc| then [] else TokensFrom(isWord, doc, j + 1))
  }

  /** `words_with_indices` of `semantic_search`. */
  function Tokenize(isWord: char -> bool, doc: string): seq<Span>
  {
    TokensFrom(isWord, doc, 0)
  }

  /** Shape of one scan step: a word run at `i` becomes the head token. */
  lemma TokensFromStep(isWord: char -> bool, doc: string, i: nat)
    requires i < |doc| && isWord(doc[i])
    ensures var j := RunEnd(isWord, doc, i);
      var ts := TokensFrom(isWord, doc, i);
      && |ts| > 0 && ts[0] == Span(doc[i..j], i, j)
      && ts[1..] == (if j == |doc| then [] else TokensFrom(isWord, doc, j + 1))
  {
  }

  /** Every span is a token starting at or after `from`. */
  ghost predicate TokensAfter(isWord: char -> bool, doc: string, ts: seq<Span>, from: int)
  {
    forall k :: 0 <= k < |ts| ==> IsToken(isWord, doc, ts[k]) && from <= ts[k].start
  }

  lemma {:induction false} TokensFromAreTokens(isWord: char -> bool, doc: string, i: nat)
    requires i <= |doc|
    requires i == 0 || !isWord(doc[i - 1])
    ensures TokensAfter(isWord, doc, TokensFrom(isWord, doc, i), i)
    decreases |doc| - i
  {
    if i == |doc| {
    } else if !isWord(doc[i]) {
      TokensFromAreTokens(isWord, doc, i + 1);
    } else {
      var j := RunEnd(isWord, doc, i);
      var ts := TokensFrom(isWord, doc, i);
      TokensFromStep(isWord, doc, i);
      assert IsToken(isWord, doc, ts[0]);
      if j < |doc| {
        TokensFromAreTokens(isWord, doc, j + 1);
        assert forall k :: 1 <= k < |ts| ==> ts[k] == ts[1..][k - 1];
      }
    }
  }

  lemma ConsOrdered(head: Span, tail: seq<Span>)
    requires Ordered(tail)
    requires forall k :: 0 <= k < |tail| ==> head.end < tail[k].start
    ensures Ordered([head] + tail)
  {
    var ts := [head] + tail;
    forall j, k | 0 <= j < k < |ts|
      ensures ts[j].end < ts[k].start
    {
      assert ts[k] == tail[k - 1];
      if j > 0 {
        assert ts[j] == tail[j - 1];
      }
    }
  }

  lemma {:induction false} TokensFromOrdered(isWord: char -> bool, doc: string, i: nat)
    requires i <= |doc|
    requires i == 0 || !isWord(doc[i - 1])
    ensures Ordered(TokensFrom(isWord, doc, i))
    decreases |doc| - i
  {
    if i == |doc| {
    } else if !isWord(doc[i]) {
      assert TokensFrom(isWord, doc, i) == TokensFrom(isWord, doc, i + 1);
      TokensFromOrdered(isWord, doc, i + 1);
    } else {
      var j := RunEnd(isWord, doc, i);
      var ts := TokensFrom(isWord, doc, i);
      TokensFromStep(isWord, doc, i);
      assert ts == [ts[0]] + ts[1..];
      if j < |doc| {
        TokensFromOrdered(isWord, doc, j + 1);
        TokensFromAreTokens(isWord, doc, j + 1);
        ConsOrdered(ts[0], ts[1..]);
      }
    }
  }

  lemma {:induction false} TokensFromCover(isWord: char -> bool, doc: string, i: nat)
    requires i <= |doc|
    ensures CoversFrom(isWord, doc, TokensFrom(isWord, doc, i), i)
    decreases |doc| - i
  {
    var ts := TokensFrom(isWord, doc, i);
    if i == |doc| {
    } else if !isWord(doc[i]) {
      TokensFromCover(isWord, doc, i + 1);
    } else {
      var j := RunEnd(isWord, doc, i);
      TokensFromStep(isWord, doc, i);
      var tail := ts[1..];
      if j < |doc| {
        TokensFromCover(isWord, doc, j + 1);
      }
      forall p | i <= p < |doc| && isWord(doc[p])
        ensures exists k :: 0 <= k < |ts| && ts[k].start <= p < ts[k].end
      {
        if p < j {
          assert ts[0].start <= p < ts[0].end;
        } else {
          assert j < p;
          var k :| 0 <= k < |tail| && tail[k].start <= p < tail[k].end;
          assert ts[k + 1] == tail[k];
        }
      }
    }
  }

  /** The scan finds exactly the maximal word runs, in order, and misses none. */
  lemma TokenizeSound(isWord: char -> bool, doc: string)
    ensures IsTokenization(isWord, doc, Tokenize(isWord, doc))
  {
    TokensFromAreTokens(isWord, doc, 0);
    TokensFromOrdered(isWord, doc, 0);
    TokensFromCover(isWord, doc, 0);
  }

  /** Two maximal word runs that share a character are the same run. */
  lemma TokensOverlapSame(isWord: char -> bool, doc: string, x: Span, y: Span, p: int)
    requires IsToken(isWord, doc, x) && IsToken(isWord, doc, y)
    requires x.start <= p < x.end && y.start <= p < y.end
    ensures x == y
  {
    assert x.start == y.start;
    assert x.end == y.end;
  }

  ghost predicate NonEmptySpans(ts: seq<Span>)
  {
    forall k :: 0 <= k < |ts| ==> ts[k].start < ts[k].end
  }

  lemma HeadIsMember(b: seq<Span>)
    ensures |b| > 0 ==> b[0] in b
  {
  }

  /** In an ordered sequence the head has the smallest start, and only it has that start. */
  lemma HeadIsFirst(a: seq<Span>, s: Span)
    requires Ordered(a) && NonEmptySpans(a) && |a| > 0
    requires s in a
    ensures a[0].start <= s.start
    ensures s.start == a[0].start ==> s == a[0]
    ensures s in a[1..] <==> s != a[0]
  {
    var k :| 0 <= k < |a| && a[k] == s;
    if k > 0 {
      assert a[0].end < a[k].start;
      assert s in a[1..];
    }
  }

  lemma {:induction false} OrderedSameElements(a: seq<Span>, b: seq<Span>)
    requires Ordered(a) && Ordered(b) && NonEmptySpans(a) && NonEmptySpans(b)
    requires forall s :: s in a <==> s in b
    ensures a == b
    decreases |a|
  {
    if |a| == 0 {
      HeadIsMember(b);
    } else {
      assert |b| > 0 by { assert a[0] in b; }
      HeadIsFirst(a, b[0]);
      HeadIsFirst(b, a[0]);
      assert a[0] == b[0];
      forall s
        ensures s in a[1..] <==> s in b[1..]
      {
        if s in a {
          HeadIsFirst(a, s);
          HeadIsFirst(b, s);
        } else {
          assert s !in a[1..] && s !in b[1..];
        }
      }
      OrderedSameElements(a[1..], b[1..]);
      assert a == [a[0]] + a[1..];
      assert b == [b[0]] + b[1..];
    }
  }

  /** A document has exactly one tokenization, so the scan is a faithful reference. */
  lemma TokenizationUnique(isWord: char -> bool, doc: string, a: seq<Span>, b: seq<Span>)
    requires IsTokenization(isWord, doc, a) && IsTokenization(isWord, doc, b)
    ensures a == b
  {
    forall s | s in a
      ensures s in b
    {
      var p := s.start;
      assert isWord(doc[p]);
      var k :| 0 <= k < |b| && b[k].start <= p < b[k].end;
      TokensOverlapSame(isWord, doc, s, b[k], p);
    }
    forall s | s in b
      ensures s in a
    {
      var p := s.start;
      assert isWord(doc[p]);
      var k :| 0 <= k < |a| && a[k].start <= p < a[k].end;
      TokensOverlapSame(isWord, doc, s, a[k], p);
    }
    OrderedSameElements(a, b);
  }

  /** `Tokenize` is the only tokenization: any sequence with the three properties equals it. */
  lemma TokenizeCharacterized(isWord: char -> bool, doc: string, ts: seq<Span>)
    ensures IsTokenization(isWord, doc, ts) <==> ts == Tokenize(isWord, doc)
  {
    TokenizeSound(isWord, doc);
    if IsTokenization(isWord, doc, ts) {
      TokenizationUnique(isWord, doc, ts, Tokenize(isWord, doc));
    }
  }

  /** The document yields no tokens exactly when it has no word character. */
  lemma NoTokensIffNoWordChar(isWord: char -> bool, doc: string)
    ensures Tokenize(isWord, doc) == [] <==> forall p :: 0 <= p < |doc| ==> !isWord(doc[p])
  {
    var ts := Tokenize(isWord, doc);
    TokenizeSound(isWord, doc);
    if ts != [] {
      assert isWord(doc[ts[0].start]);
    }
  }
}
