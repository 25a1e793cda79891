/**
 * Scoring steps of `semantic_search`: similarity of every candidate to the query,
 * `np.argmax` over the scores, the clamped context window around the winner and
 * the blend of the two similarities. The sentence encoder and cosine similarity
 * are parameters; scores are mathematical reals.
 */
module Scoring {
  import opened Tokenizer
  import opened Text

  /** The embedding model (`SentenceTransformer.encode`) and `cosine_similarity`. */
  datatype Embedder<!V> = Embedder(encode: string -> V, sim: (V, V) -> real)

  /** Cosine similarity of the embeddings of two texts. */
  function Similarity<V>(e: Embedder<V>, query: string, text: string): real
  {
    e.sim(e.encode(query), e.encode(text))
  }

  /** `cosine_similarity([query_embedding], candidate_embeddings)[0]`. */
  function Scores<V>(e: Embedder<V>, query: string, cs: seq<Span>): (s: seq<real>)
    ensures |s| == |cs|
  {
    seq(|cs|, i requires 0 <= i < |cs| => Similarity(e, query, cs[i].text))
  }

  /** `k` holds a maximal score and no earlier index does. */
  ghost predicate IsFirstMax(s: seq<real>, k: int)
  {
    && 0 <= k < |s|
    && (forall j :: 0 <= j < |s| ==> s[j] <= s[k])
    && (forall j :: 0 <= j < k ==> s[j] < s[k])
  }

  /** `np.argmax`: the first index of a maximal element. */
  function ArgMax(s: seq<real>): (k: nat)
    requires |s| > 0
    ensures IsFirstMax(s, k)
  {
    if |s| == 1 then 0
    else
      var k := ArgMax(s[..|s| - 1]);
      if s[|s| - 1] > s[k] then |s| - 1 else k
  }

  /** At most one index is the first maximum, so `ArgMax` is the only choice. */
  lemma FirstMaxUnique(s: seq<real>, a: int, b: int)
    requires IsFirstMax(s, a) && IsFirstMax(s, b)
    ensures a == b
  {
    assert s[a] <= s[b] && s[b] <= s[a];
    assert !(a < b);
    assert !(b < a);
  }

  /** `(context_start, context_end)` for a span and a margin of `c` characters. */
  function ContextBounds(docLen: nat, start: nat, end: nat, c: int): (int, int)
  {
    (Max(0, start - c), Min(docLen, end + c))
  }

  /** `document[context_start:context_end]`. */
  function ContextWindow(doc: string, start: nat, end: nat, c: int): string
  {
    var bounds := ContextBounds(|doc|, start, end, c);
    PySlice(doc, bounds.0, bounds.1)
  }

  /**
   * With a non-negative margin the window is clamped to the document, contains the
   * span, and extends `c` characters on each side wherever the document allows.
   */
  lemma ContextWindowContainsSpan(doc: string, start: nat, end: nat, c: int)
    requires start < end <= |doc| && c >= 0
    ensures 0 <= ContextBounds(|doc|, start, end, c).0 <= start
    ensures end <= ContextBounds(|doc|, start, end, c).1 <= |doc|
    ensures ContextBounds(|doc|, start, end, c).0 in {0, start - c}
    ensures ContextBounds(|doc|, start, end, c).1 in {|doc|, end + c}
    ensures var lo := ContextBounds(|doc|, start, end, c).0;
      var hi := ContextBounds(|doc|, start, end, c).1;
      0 <= lo <= hi <= |doc| && ContextWindow(doc, start, end, c) == doc[lo..hi]
    ensures var lo := ContextBounds(|doc|, start, end, c).0;
      0 <= lo <= start && ContextWindow(doc, start, end, c)[start - lo..end - lo] == doc[start..end]
  {
    var lo := ContextBounds(|doc|, start, end, c).0;
    var hi := ContextBounds(|doc|, start, end, c).1;
    var w := ContextWindow(doc, start, end, c);
    assert 0 <= lo <= start < end <= hi <= |doc|;
    assert w == PySlice(doc, lo, hi);
    assert w == doc[lo..hi];
    SliceOfSlice(doc, lo, hi, start, end);
  }

  /** Slicing a slice is slicing the whole at shifted offsets. */
  lemma SliceOfSlice(s: string, lo: nat, hi: nat, i: nat, j: nat)
    requires lo <= i <= j <= hi <= |s|
    ensures s[lo..hi][i - lo..j - lo] == s[i..j]
  {
    assert |s[lo..hi][i - lo..j - lo]| == j - i;
    forall k | 0 <= k < j - i
      ensures s[lo..hi][i - lo..j - lo][k] == s[i..j][k]
    {
    }
  }

  /** `context_weight_alpha * original + (1 - context_weight_alpha) * context`. */
  function Blend(alpha: real, original: real, context: real): real
  {
    alpha * original + (1.0 - alpha) * context
  }

  /** For a weight in [0, 1] the blended score lies between its two inputs. */
  lemma BlendBetween(alpha: real, original: real, context: real)
    requires 0.0 <= alpha <= 1.0
    ensures original <= context ==> original <= Blend(alpha, original, context) <= context
    ensures context <= original ==> context <= Blend(alpha, original, context) <= original
  {
    var b := Blend(alpha, original, context);
    var d := original - context;
    assert b - context == alpha * d;
    assert original - b == (1.0 - alpha) * d;
    ScaleKeepsSign(alpha, d);
    ScaleKeepsSign(1.0 - alpha, d);
  }

  /** Scaling by a non-negative factor keeps the sign. */
  lemma ScaleKeepsSign(w: real, d: real)
    requires 0.0 <= w
    ensures d <= 0.0 ==> w * d <= 0.0
    ensures d >= 0.0 ==> w * d >= 0.0
  {
  }
}
