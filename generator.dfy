/** `generate_answer` (rag/generator.py): number the retrieved chunks into a
    context, answer from the cache when the question was seen with that
    context, otherwise ask the model with the truncated context, clean and
    restructure its response, and remember it. */
module Generator {
  import opened Text
  import opened Lines
  import opened Structure
  import opened Truncation
  import opened Context
  import opened Cache

  /** What the model call gives back: a completion, or the message of the
      exception it raised. */
  datatype LlmOutcome = Completion(text: String) | Failure(message: String)

  /** The answer returned and the cache afterwards. */
  datatype Reply = Reply(answer: String, cache: CacheState)

  /** The answer given when there is nothing to answer from. */
  const NotFoundSentence: String := NotFoundMarker + " to that question in the provided document."

  const ErrorLead: String := "Error: Unable to generate answer. Please ensure Ollama is running. ("

  /** A stripped response shorter than this is replaced by the sentence
      above. */
  const MinResponseLength: nat := 10

  /** The answer returned when the model call raised: the lead, then the
      exception's message, then a closing parenthesis. */
  function ErrorAnswer(message: String): (r: String)
    ensures |r| == |ErrorLead| + |message| + 1
    ensures r[..|ErrorLead|] == ErrorLead
    ensures r[|ErrorLead|..|r| - 1] == message && r[|r| - 1] == ')'
  {
    var r := ErrorLead + message + ")";
    assert r[..|ErrorLead|] == ErrorLead;
    assert r[|ErrorLead|..|r| - 1] == message;
    r
  }

  /** The model's text stripped, or the not-found sentence when what is left
      is empty or shorter than ten characters. */
  function CleanResponse(text: String): String {
    var r := Strip(text);
    if |r| < MinResponseLength then NotFoundSentence else r
  }

  /** One call of `generate_answer` against the cache `cache`, with the model
      `llm` standing for the prompt-to-response call. */
  function Generate(cache: CacheState, contents: seq<String>, query: String, useCache: bool,
                    llm: String -> LlmOutcome): (r: Reply)
    requires ValidState(cache) && |cache.order| <= MaxEntries
    ensures ValidState(r.cache) && |r.cache.order| <= MaxEntries
  {
    if |contents| == 0 then Reply(NotFoundSentence, cache)
    else
      var context := ContextOf(contents);
      if useCache && KeyOf(query, context) in cache.answers then Reply(cache.answers[KeyOf(query, context)], cache)
      else
        var kept := Truncated(context, DefaultBudget);
        match llm(Prompt(kept, query))
        case Failure(m) => Reply(ErrorAnswer(m), cache)
        case Completion(text) =>
          var answer := Improved(CleanResponse(text));
          PutValid(cache, KeyOf(query, kept), answer);
          Reply(answer, if useCache then Put(cache, KeyOf(query, kept), answer) else cache)
  }

  /** The call itself, over the shared cache object. */
  method GenerateAnswer(cache: QueryCache, contents: seq<String>, query: String, useCache: bool,
                        llm: String -> LlmOutcome) returns (answer: String)
    requires cache.Valid()
    modifies cache
    ensures cache.Valid()
    ensures Reply(answer, cache.State()) == Generate(old(cache.State()), contents, query, useCache, llm)
  {
    if |contents| == 0 {
      return NotFoundSentence;
    }
    var context := AssembleContext(contents);
    if useCache {
      var hit := cache.Lookup(KeyOf(query, context));
      if hit.Some? {
        return hit.value;
      }
    }
    context := TruncateContext(context, DefaultBudget);
    var outcome := llm(Prompt(context, query));
    match outcome {
      case Failure(m) =>
        answer := ErrorAnswer(m);
      case Completion(text) =>
        var response := Strip(text);
        if |response| < MinResponseLength {
          response := NotFoundSentence;
        }
        answer := ImproveStructure(response);
        if useCache {
          cache.Store(KeyOf(query, context), answer);
        }
    }
  }

  /** The not-found sentence contains the marker that switches the
      restructuring off. */
  lemma NotFoundSentenceHasMarker()
    ensures Contains(NotFoundSentence, NotFoundMarker)
    ensures Improved(NotFoundSentence) == NotFoundSentence
  {
    assert NotFoundSentence[..|NotFoundMarker|] == NotFoundMarker;
  }

  /** The cleaned response has no outer whitespace. */
  lemma CleanResponseTrimmed(text: String)
    ensures IsTrimmed(CleanResponse(text))
    ensures |CleanResponse(text)| >= MinResponseLength
  {
    assert NotFoundSentence[0] == 'I' && NotFoundSentence[|NotFoundSentence| - 1] == '.';
  }

  /** No chunks: the not-found sentence, the cache untouched, and no model
      call (any model gives the same reply). */
  lemma NoDocuments(cache: CacheState, query: String, useCache: bool, llm: String -> LlmOutcome, other: String -> LlmOutcome)
    requires ValidState(cache) && |cache.order| <= MaxEntries
    ensures Generate(cache, [], query, useCache, llm) == Reply(NotFoundSentence, cache)
    ensures Generate(cache, [], query, useCache, llm) == Generate(cache, [], query, useCache, other)
  {
  }

  /** A cached question: the stored answer, the cache untouched, and no
      model call. */
  lemma CacheHit(cache: CacheState, contents: seq<String>, query: String, llm: String -> LlmOutcome, other: String -> LlmOutcome)
    requires ValidState(cache) && |cache.order| <= MaxEntries
    requires |contents| > 0 && KeyOf(query, ContextOf(contents)) in cache.answers
    ensures Generate(cache, contents, query, true, llm) == Reply(cache.answers[KeyOf(query, ContextOf(contents))], cache)
    ensures Generate(cache, contents, query, true, llm) == Generate(cache, contents, query, true, other)
  {
  }

  /** A failing model call: an answer that starts with the error lead and
      carries the exception's message, and the cache untouched. */
  lemma ModelFailure(cache: CacheState, contents: seq<String>, query: String, useCache: bool, llm: String -> LlmOutcome)
    requires ValidState(cache) && |cache.order| <= MaxEntries && |contents| > 0
    requires !(useCache && KeyOf(query, ContextOf(contents)) in cache.answers)
    requires llm(Prompt(Truncated(ContextOf(contents), DefaultBudget), query)).Failure?
    ensures Generate(cache, contents, query, useCache, llm) ==
      Reply(ErrorAnswer(llm(Prompt(Truncated(ContextOf(contents), DefaultBudget), query)).message), cache)
  {
  }

  /** The answer made from a completion has no outer whitespace, and a
      completion that strips to fewer than ten characters becomes the
      not-found sentence. */
  lemma CompletionAnswer(text: String)
    ensures IsTrimmed(Improved(CleanResponse(text)))
    ensures |Strip(text)| < MinResponseLength ==> Improved(CleanResponse(text)) == NotFoundSentence
  {
    NotFoundSentenceHasMarker();
    CleanResponseTrimmed(text);
    ImprovedShape(CleanResponse(text));
  }

  /** A completion: the answer is the cleaned, restructured response; with
      the cache on it is stored under the key of the truncated context, the
      cache keeping at most 100 entries, and with it off the cache is left
      alone. */
  lemma ModelSuccess(cache: CacheState, contents: seq<String>, query: String, useCache: bool, llm: String -> LlmOutcome)
    requires ValidState(cache) && |cache.order| <= MaxEntries && |contents| > 0
    requires !(useCache && KeyOf(query, ContextOf(contents)) in cache.answers)
    requires llm(Prompt(Truncated(ContextOf(contents), DefaultBudget), query)).Completion?
    ensures var r := Generate(cache, contents, query, useCache, llm);
      var kept := Truncated(ContextOf(contents), DefaultBudget);
      && r.answer == Improved(CleanResponse(llm(Prompt(kept, query)).text))
      && (!useCache ==> r.cache == cache)
      && (useCache ==> r.cache == Put(cache, KeyOf(query, kept), r.answer))
      && (useCache ==> KeyOf(query, kept) in r.cache.answers && r.cache.answers[KeyOf(query, kept)] == r.answer)
      && |r.cache.answers| <= MaxEntries
  {
    var r := Generate(cache, contents, query, useCache, llm);
    KeyCount(cache);
    KeyCount(r.cache);
    if useCache {
      PutSpec(cache, KeyOf(query, Truncated(ContextOf(contents), DefaultBudget)), r.answer);
    }
  }

  /** Asking the same question about the same chunks again, after a
      successful first call with the cache on, returns the first answer
      without calling the model, as long as truncation left at least 500
      characters of context or left the context as it was. */
  lemma RepeatQueryHits(cache: CacheState, contents: seq<String>, query: String, llm: String -> LlmOutcome, other: String -> LlmOutcome)
    requires ValidState(cache) && |cache.order| <= MaxEntries && |contents| > 0
    requires KeyOf(query, ContextOf(contents)) !in cache.answers
    requires llm(Prompt(Truncated(ContextOf(contents), DefaultBudget), query)).Completion?
    requires |Truncated(ContextOf(contents), DefaultBudget)| >= KeyContextLength ||
      Truncated(ContextOf(contents), DefaultBudget) == ContextOf(contents)
    ensures var first := Generate(cache, contents, query, true, llm);
      Generate(first.cache, contents, query, true, other) == first
  {
    var context := ContextOf(contents);
    var first := Generate(cache, contents, query, true, llm);
    PutSpec(cache, KeyOf(query, Truncated(context, DefaultBudget)), first.answer);
    if |Truncated(context, DefaultBudget)| >= KeyContextLength {
      StoreKeyMatchesLookupKey(query, context);
    }
  }

  /** When truncation cut the context below 500 characters, the answer is
      stored under a key the next identical call never looks up: that call
      misses the cache again and asks the model again. */
  lemma RepeatQueryMisses(cache: CacheState, contents: seq<String>, query: String, llm: String -> LlmOutcome)
    requires ValidState(cache) && |cache.order| <= MaxEntries && |contents| > 0
    requires KeyOf(query, ContextOf(contents)) !in cache.answers
    requires llm(Prompt(Truncated(ContextOf(contents), DefaultBudget), query)).Completion?
    requires Truncated(ContextOf(contents), DefaultBudget) != ContextOf(contents)
    requires |Truncated(ContextOf(contents), DefaultBudget)| < KeyContextLength
    ensures var first := Generate(cache, contents, query, true, llm);
      KeyOf(query, ContextOf(contents)) !in first.cache.answers
  {
    var context := ContextOf(contents);
    var first := Generate(cache, contents, query, true, llm);
    PutSpec(cache, KeyOf(query, Truncated(context, DefaultBudget)), first.answer);
    StoreKeyMismatch(query, context);
  }
}
