# Semantic phrase matching — a Dafny model

This project models the matching core of a small semantic-search tool. Given a
document and a query, `SemanticModel.semantic_search` finds the word, or the
two- or three-word phrase, whose sentence embedding is closest to the query's.
It refines that candidate's score with a character window around it and accepts
the candidate when the blended score reaches a threshold. The routine exists
twice: once in the command-line front end (`interfaces/cli/cli.py`) and once in
the web front end (`interfaces/web-app/main.py`). The web front end wraps it in
`SemanticModel.predict`, which rejects empty text, defaults the query and
memoises reply strings in an unbounded dictionary.

The model is functional. Tokens and candidates are immutable `Span` records
(text, start, end). The state that `SemanticModel` mutates is a datatype that
each operation threads through: whether the model is loaded, how often it was
built, and the cache. The sentence encoder and cosine similarity are parameters
(`Embedder<V>(encode, sim)`), and so is the Unicode `\w` class (`isWord`).
Every property therefore holds for every encoder and every word-character
classification. Scores are mathematical reals.

Modules, following the program's pipeline:

- `Text` (text.dfy): Python slicing with negative bounds, and `str(int)`. It also has the `"start - end"` position string and a parser for it.
- `Tokenizer` (tokenizer.dfy): `re.finditer(r'\w+', document)`, plus a declarative tokenization predicate with existence and uniqueness proofs.
- `CandidateGenerator` (candidates.dfy): unigrams, then bigrams, then trigrams.
- `Scoring` (scoring.dfy): per-candidate similarity, `np.argmax`, the context window and the blend.
- `Search` (search.dfy): both variants of `semantic_search`, the lazy `load`, and an encoder-call trace.
- `SearchProperties` (search_properties.dfy): threshold monotonicity, how the two variants relate, and score bounds.
- `Scenarios` (scenarios.dfy): worked examples on concrete documents.
- `Service` (service.dfy): `predict`, generic over the cache-key function.
- `CacheProperties` (cache_properties.dfy): repeated requests, and cache transparency for an injective key.

Behaviour of the code worth knowing:

- Empty input, no candidates and below-threshold all return `None`. The model keeps a `Reason` beside the verdict because the code logs each case differently. The value a caller receives is still the same `None`.
- The command-line variant encodes the query before it checks for an empty candidate list. The model records that encoder call.
- The web variant has no input or candidate guards. On a document without word characters it raises, and the model returns `Failure`.
- The cache key is a concatenated string, not the (text, query, threshold) triple. See "Findings".

## Model

| member | source | states |
|---|---|---|
| `Text.PySlice` | interfaces/cli/cli.py:159 | `document[a:b]` never exceeds the document. With in-range bounds it is the ordinary slice. With `0 <= b <= a` it is empty. Negative bounds count from the end, as in Python. |
| `Text.NatToString` | interfaces/cli/cli.py:177 | `str(n)` of an offset is a non-empty string of decimal digits with no leading zero. |
| `Text.PositionRoundTrip` | interfaces/cli/cli.py:177 | The position string `"<start> - <end>"` parses back to exactly the two offsets, so it identifies the span. |
| `Text.PositionInjective` | interfaces/web-app/main.py:86 | Different (start, end) pairs never give the same position string. |
| `Tokenizer.RunEnd` | interfaces/cli/cli.py:104 | The greedy `\w+` match from a word character ends at the first non-word character or at the end of the document. |
| `Tokenizer.TokenizeSound` | interfaces/cli/cli.py:103-109 | Every token is a maximal run of word characters, and its text is that slice of the document. Tokens are strictly increasing and non-overlapping. Every word character lies in some token. |
| `Tokenizer.TokenizationUnique` | interfaces/cli/cli.py:104 | Two token sequences that both satisfy the tokenization properties are equal. |
| `Tokenizer.TokenizeCharacterized` | interfaces/web-app/main.py:35-41 | A sequence is a tokenization of the document if and only if it equals `Tokenize`'s result. |
| `Tokenizer.NoTokensIffNoWordChar` | interfaces/cli/cli.py:103-109 | There are no tokens exactly when the document has no word character. |
| `CandidateGenerator.Layer` | interfaces/cli/cli.py:117-124 | One `for i in range(n - k + 1)` loop yields `max(0, n-k+1-i)` candidates. Element `j` is the k-token candidate that starts at token `i+j`. |
| `CandidateGenerator.Candidates` | interfaces/cli/cli.py:111-135 | For n tokens there are exactly `n + max(0,n-1) + max(0,n-2)` candidates. Unigrams come first, then bigrams, then trigrams, each left to right. |
| `CandidateGenerator.NGramTexts` | interfaces/cli/cli.py:113-135 | A unigram is the token itself. A bigram's or trigram's text is the token texts joined by single spaces. Its span runs from the first token's start to the last token's end. |
| `CandidateGenerator.CandidateShape` | interfaces/web-app/main.py:42-61 | Every candidate consists of 1, 2 or 3 adjacent tokens at some position. No token is skipped. |
| `CandidateGenerator.NGramSpan` | interfaces/cli/cli.py:126-135 | A candidate's span contains all of its own tokens and is disjoint from every other token. It satisfies `0 <= start < end <= len(document)`. |
| `CandidateGenerator.CandidatesWithinDocument` | interfaces/cli/cli.py:117-135 | Every candidate is a non-empty slice of the document that starts and ends on a word boundary. |
| `CandidateGenerator.NoCandidatesIffNoWordChar` | interfaces/cli/cli.py:142-146 | The candidate list is empty exactly when the document has no word character. |
| `Scoring.ArgMax` | interfaces/cli/cli.py:152 | `np.argmax` returns an index of a maximal score, and every earlier score is strictly smaller. |
| `Scoring.FirstMaxUnique` | interfaces/web-app/main.py:70 | Only one index satisfies the first-maximum property, so the tie-break is determined. |
| `Scoring.ContextWindowContainsSpan` | interfaces/cli/cli.py:157-159 | For `c >= 0`, `0 <= context_start <= start < end <= context_end <= len(document)`. Each bound is either clamped or exactly `c` characters away. The window is that slice of the document and contains the candidate's text at offset `start - context_start`. |
| `Scoring.BlendBetween` | interfaces/cli/cli.py:165 | For `alpha` in [0, 1], `alpha*orig + (1-alpha)*ctx` lies between `orig` and `ctx`. |
| `Search.NewEngine` | interfaces/cli/cli.py:77-81 | A new `SemanticModel` has no model loaded and satisfies the invariant that the model is constructed at most once. |
| `Search.ReplayBuildsAtMostOnce` | interfaces/cli/cli.py:83-100 | After any series of `load` and `semantic_search` calls, a model that was constructed at most once still is. |
| `Search.NewEngineBuildsAtMostOnce` | interfaces/cli/cli.py:77-100 | Starting from a new `SemanticModel`, any series of `load` and `semantic_search` calls constructs the sentence model at most once. |
| `Search.Load` | interfaces/cli/cli.py:83-90 | After `load` the model is present. A loaded model is left untouched. The model is never built more than once. |
| `Search.LoadIdempotent` | interfaces/web-app/main.py:27-31 | Loading twice is the same as loading once. Only a first load builds the model. |
| `Search.Evaluate` | interfaces/cli/cli.py:140-166 | There is no evaluation exactly when the document has no word character. Otherwise the chosen candidate is the first one with maximal similarity, the window is the clamped context slice, and the final score blends the two similarities. |
| `Search.Decide` | interfaces/cli/cli.py:175-180 | A candidate is returned if and only if `final_score >= threshold`. It carries the blended score and a position string that reads back to its span. Otherwise the result is `None`. |
| `Search.CliSearch` | interfaces/cli/cli.py:92-180 | Empty document or query returns `None` without loading or encoding anything. A document without word characters returns `None` after encoding only the query. Otherwise the model is loaded. A returned candidate comes from the document, scores at least as high as every other candidate and meets the threshold. The encoder sees the query, the candidate batch and the window, in that order. |
| `Search.WebSearch` | interfaces/web-app/main.py:33-91 | It raises exactly when the document has no word character. Otherwise it returns a candidate that meets the threshold, or `None`. |
| `SearchProperties.CliAcceptIff` | interfaces/cli/cli.py:165-180 | For every threshold, a result is returned if and only if the inputs are non-empty, a candidate exists and the threshold-independent blended score reaches the threshold. |
| `SearchProperties.CliThresholdMonotone` | interfaces/cli/cli.py:176-180 | If a higher threshold returns a result, every lower threshold returns the same result. |
| `SearchProperties.WebThresholdMonotone` | interfaces/web-app/main.py:85-91 | The same monotonicity holds for the web variant. |
| `SearchProperties.CliWebAgree` | interfaces/web-app/main.py:35-72 | On non-empty inputs the two variants give the same verdict whenever the web one does not raise. The web one raises exactly when the command line reports no candidates. |
| `SearchProperties.FoundScoreBetween` | interfaces/cli/cli.py:157-166 | For `alpha` in [0, 1], a returned score lies between the candidate's own similarity and its context window's similarity. |
| `Scenarios.TokenizeExample` | interfaces/cli/cli.py:104-109 | "быстрая лиса прыгает" tokenizes to three words at offsets 0-7, 8-12 and 13-20. |
| `Scenarios.ThreeTokenCandidates` | interfaces/cli/cli.py:111-135 | Three tokens give exactly 3 unigrams, 2 bigrams and 1 trigram, in that order. |
| `Scenarios.ThreeWordCandidates` | interfaces/web-app/main.py:42-61 | The three-word example has six candidates with the expected texts and spans. |
| `Scenarios.ExactWordFound` | interfaces/cli/cli.py:151-178 | Searching "лиса" with an identity-only similarity returns "лиса" at "8 - 12" with score 0.8. |
| `Scenarios.BelowThresholdRejected` | interfaces/cli/cli.py:165-180 | With every similarity at 0.5, a threshold of 0.99999 gives `None` even though a candidate exists. |
| `Service.DefaultQuery` | interfaces/web-app/main.py:102-103 | A given query is kept. An empty query becomes the text's prefix of length `min(100, len(text))`, which is non-empty when the text is. |
| `Service.ReplyText` | interfaces/web-app/main.py:113-118 | A match reply and a no-match reply can always be told apart: character 12 is that of the match prefix exactly when a candidate was found. A match reply starts with the match prefix followed by the candidate text. A no-match reply starts with the no-match prefix. |
| `Service.PredictWith` | interfaces/web-app/main.py:93-123 | Empty text returns "Текст не предоставлен" and changes nothing. Otherwise the model is loaded. A cache hit returns the stored string without searching. A miss searches and stores exactly the reply under the key, and a raised search stores nothing. No existing entry is removed or changed. |
| `Service.Predict` | interfaces/web-app/main.py:93-108 | `predict` with its f-string key: empty text is rejected without loading, and a stored key is answered from the cache without a search. |
| `Service.PredictByTriple` | interfaces/web-app/main.py:105-108 | `predict` keyed by the (text, query, threshold) triple: empty text is rejected, and a stored triple is answered without a search. |
| `CacheProperties.EmptyCacheIsFresh` | interfaces/web-app/main.py:110-123 | With an empty cache, `predict` returns the reply computed directly from the search. |
| `CacheProperties.PredictTwice` | interfaces/web-app/main.py:106-123 | Repeating a request returns the same reply and leaves the same state. Once a reply is stored, the repeat runs no search. |
| `CacheProperties.ServeBuildsAtMostOnce` | interfaces/web-app/main.py:27-31 | Serving any series of `predict` requests from a new `SemanticModel` constructs the sentence model at most once, whatever the cache key. |
| `CacheProperties.InjectiveKeyTransparent` | interfaces/web-app/main.py:106-121 | With an injective key, a coherent cache stays coherent and every reply equals the uncached reply. |
| `CacheProperties.PredictByTripleTransparent` | interfaces/web-app/main.py:106-108 | The triple-keyed `predict` never serves a reply that differs from the uncached one. |
| `CacheProperties.StringKeyCollides` | interfaces/web-app/main.py:106 | ("a\|\|b", "c") and ("a", "b\|\|c") produce the same string key at any threshold. |
| `CacheProperties.StringKeyServesStaleReply` | interfaces/web-app/main.py:106-108 | After `predict("a||b", "c")`, the call `predict("a", "b||c")` returns the first call's reply without searching, and that reply differs from its own uncached reply. |

## Left out

- Logging: the JSON formatter, the rotating file handler and `log` (interfaces/cli/cli.py:16-74). They are I/O and do not affect results.
- `get_default_log_filename`, `process_document` and `main` (interfaces/cli/cli.py:182-312). They handle argument parsing, console output, file reading and directory listing.
- The Flask application, its upload settings and the `/process` route (interfaces/web-app/main.py:11-18, 125-157), and static/js/main.js. These are HTTP and browser plumbing.
- The sentence encoder and `cosine_similarity` are parameters. The model does not capture float rounding, vector arithmetic, or any difference between batched and single encoding. A batch is modelled as encoding each text separately.
- `np.argmax` on NaN scores: reals have no NaN.
- `f'{x:.4f}'` and `str(threshold)` are the abstract `Format` functions. The model assumes nothing about them, so collisions that only float rendering could cause are not explored.
- `None` arguments: documents and queries are always strings.
- The command-line `SemanticModel.cache` attribute: `cli.py` never uses it.
- Failures of the sentence model are not modelled: `Load` always succeeds and `Embedder.encode` is total. In the Python code, a failing `SentenceTransformer(...)` (interfaces/cli/cli.py:87, interfaces/web-app/main.py:30) leaves `self.model` as `None`, so the next call tries to load again. A failing `encode` (interfaces/cli/cli.py:141, 148, 160; interfaces/web-app/main.py:64, 66, 77) raises out of `semantic_search` and `predict`, and nothing is cached. These are errors of a foreign library the model cannot see.
- Search.WebSearch: takes no model state. A call on an unloaded model would raise `AttributeError`, but `predict` always loads before searching (main.py:99).
- Printing and logging inside `semantic_search` and `load`: these are console I/O.
- Concurrent callers of `load` and the cache: the Python code takes no locks, and the model assumes one call at a time.

## Findings

| source | as written | input that shows it | evidently intended | confidence | as-written member | corrected member |
|---|---|---|---|---|---|---|
| interfaces/web-app/main.py:106 | cache key `f"{text}\|\|{query}\|\|{threshold}"` | `predict("a\|\|b", "c")` then `predict("a", "b\|\|c")` at the same threshold | a key that identifies the (text, query, threshold) request, so that a cached reply is always the reply for that request | medium; not executed | `CacheProperties.StringKeyServesStaleReply` | `CacheProperties.PredictByTripleTransparent` |
