/**
 * `SemanticModel.predict` of the web front end: rejects empty text, loads the
 * model, defaults the query to a prefix of the text, and memoises reply strings
 * in an unbounded cache. The cache key is a parameter so that the f-string key
 * of the Python code and a key that identifies the request can be compared.
 */
module Service {
  import opened Wrappers
  import opened Text
  import opened Scoring
  import opened Search

  /** The two float renderings used in replies and keys: `f'{x:.4f}'` and `str(x)`. */
  datatype Format = Format(fixed4: real -> string, repr: real -> string)

  const NoTextReply: string := "Текст не предоставлен"
  const FoundPrefix: string := "Обработано: найдено '"
  const NotFoundPrefix: string := "Обработано: совпадений не найдено (порог: "
  const QueryPrefixLength: nat := 100
  const KeySeparator: string := "||"

  /** `query` if given, else `text[:min(100, len(text))]`. */
  function DefaultQuery(text: string, query: string): (q: string)
    ensures query != [] ==> q == query
    ensures query == [] ==> |q| == Min(QueryPrefixLength, |text|) && q == text[..|q|]
    ensures text != [] ==> q != []
  {
    if query == [] then PySlice(text, 0, Min(QueryPrefixLength, |text|)) else query
  }

  /**
   * The reply string built from a search verdict. A match reply and a no-match
   * reply can always be told apart: they differ at character 12.
   */
  function ReplyText(fmt: Format, v: Verdict, threshold: real): (s: string)
    ensures v.Found? ==> s == FoundPrefix + v.best.text + "' (позиция: " + v.position
                               + ", сходство: " + fmt.fixed4(v.score) + ")"
    ensures v.NotFound? ==> s == NotFoundPrefix + fmt.repr(threshold) + ")"
    ensures v.Found? ==> FoundPrefix + v.best.text <= s
    ensures v.NotFound? ==> NotFoundPrefix <= s
    ensures |s| > 12 && (s[12] == FoundPrefix[12] <==> v.Found?)
  {
    match v
    case Found(best, position, score) =>
      FoundPrefix + best.text + "' (позиция: " + position + ", сходство: " + fmt.fixed4(score) + ")"
    case NotFound(_) => NotFoundPrefix + fmt.repr(threshold) + ")"
  }

  /** The cache key of `predict`: `f"{text}||{query}||{threshold}"`. */
  function StringKey(fmt: Format, text: string, query: string, threshold: real): string
  {
    text + KeySeparator + query + KeySeparator + fmt.repr(threshold)
  }

  /** The string key as a key function. */
  function StringKeyOf(fmt: Format): (string, string, real) -> string
  {
    (t, q, h) => StringKey(fmt, t, q, h)
  }

  /** A key that is the request triple itself. */
  function TripleKey(text: string, query: string, threshold: real): (string, string, real)
  {
    (text, query, threshold)
  }

  /** The state `predict` reads and writes: the model slot and the memo table. */
  datatype SemanticModel<K> = SemanticModel(engine: Engine, cache: map<K, string>)

  /** A fresh `SemanticModel`: nothing loaded, empty cache. */
  function NewModel<K>(): SemanticModel<K>
  {
    SemanticModel(NewEngine(DefaultModelName), map[])
  }

  /** The reply (or the exception raised by the search), the state afterwards, and whether a search ran. */
  datatype Answer<K> = Answer(reply: Result<string, SearchError>, model: SemanticModel<K>, searched: bool)

  /** `predict` with the cache keyed by `key(text, query, threshold)`. */
  function PredictWith<V, K(==)>(key: (string, string, real) -> K, isWord: char -> bool, e: Embedder<V>,
                                 fmt: Format, m: SemanticModel<K>, text: string, query: string,
                                 threshold: real): (r: Answer<K>)
    ensures text == [] ==> r == Answer(Success(NoTextReply), m, false)
    ensures text != [] ==> r.model.engine == Load(m.engine)
    ensures text != [] && key(text, DefaultQuery(text, query), threshold) in m.cache ==>
      var k := key(text, DefaultQuery(text, query), threshold);
      r.reply == Success(m.cache[k]) && !r.searched && r.model.cache == m.cache
    ensures text != [] && key(text, DefaultQuery(text, query), threshold) !in m.cache ==>
      var k := key(text, DefaultQuery(text, query), threshold);
      && r.searched
      && (r.reply.Success? ==> r.model.cache == m.cache[k := r.reply.value])
      && (r.reply.Failure? ==> r.model.cache == m.cache)
    ensures BuiltAtMostOnce(m.engine) ==> BuiltAtMostOnce(r.model.engine)
    ensures m.cache.Keys <= r.model.cache.Keys
    ensures forall k :: k in m.cache ==> r.model.cache[k] == m.cache[k]
  {
    if text == [] then Answer(Success(NoTextReply), m, false)
    else
      var loaded := m.(engine := Load(m.engine));
      var q := DefaultQuery(text, query);
      var k := key(text, q, threshold);
      if k in loaded.cache then Answer(Success(loaded.cache[k]), loaded, false)
      else
        match WebSearch(isWord, e, text, q, threshold, DefaultContextChars, DefaultAlpha)
        case Failure(err) => Answer(Failure(err), loaded, true)
        case Success(v) =>
          var s := ReplyText(fmt, v, threshold);
          Answer(Success(s), loaded.(cache := loaded.cache[k := s]), true)
  }

  /** `SemanticModel.predict` as written: string-keyed cache. */
  function Predict<V>(isWord: char -> bool, e: Embedder<V>, fmt: Format, m: SemanticModel<string>,
                      text: string, query: string, threshold: real): (r: Answer<string>)
    ensures text == [] ==> r.reply == Success(NoTextReply) && r.model == m && !r.searched
    ensures text != [] ==> r.model.engine.loaded
    ensures text != [] && StringKey(fmt, text, DefaultQuery(text, query), threshold) in m.cache ==>
      r.reply == Success(m.cache[StringKey(fmt, text, DefaultQuery(text, query), threshold)]) && !r.searched
  {
    PredictWith(StringKeyOf(fmt), isWord, e, fmt, m, text, query, threshold)
  }

  /** `predict` with the request triple itself as the key, so distinct requests never share an entry. */
  function PredictByTriple<V>(isWord: char -> bool, e: Embedder<V>, fmt: Format,
                              m: SemanticModel<(string, string, real)>, text: string, query: string,
                              threshold: real): (r: Answer<(string, string, real)>)
    ensures text == [] ==> r.reply == Success(NoTextReply) && r.model == m && !r.searched
    ensures text != [] && (text, DefaultQuery(text, query), threshold) in m.cache ==>
      r.reply == Success(m.cache[(text, DefaultQuery(text, query), threshold)]) && !r.searched
  {
    PredictWith(TripleKey, isWord, e, fmt, m, text, query, threshold)
  }

  /** One request to `predict`: text, query and threshold. */
  datatype Request = Request(text: string, query: string, threshold: real)

  /** The state after serving `reqs` in order, starting from `m`. */
  function Serve<V, K(==)>(key: (string, string, real) -> K, isWord: char -> bool, e: Embedder<V>,
                           fmt: Format, m: SemanticModel<K>, reqs: seq<Request>): (r: SemanticModel<K>)
    ensures m.cache.Keys <= r.cache.Keys
    decreases |reqs|
  {
    if |reqs| == 0 then m
    else
      var a := PredictWith(key, isWord, e, fmt, m, reqs[0].text, reqs[0].query, reqs[0].threshold);
      Serve(key, isWord, e, fmt, a.model, reqs[1..])
  }
}
