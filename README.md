# Local RAG document Q&A: retrieval, answer generation and display formatting

A Dafny model of the answering path of a small retrieval-augmented question
answering application:

- **Retrieval** (`retrieve_context`, module `Retriever`): the candidates a
  vector search returned, best first, are filtered by the similarity
  `1 / (1 + distance)` against a threshold (default 0.25). The scan stops as
  soon as `k` documents (default 5) have passed. When fewer than `k` pass, the
  first `k` candidates come back unfiltered.
- **Context assembly and truncation** (`generate_answer`, `truncate_context`,
  modules `Context` and `Truncation`): each retrieved chunk becomes a section
  `[Section i]\n<content stripped>`. Sections are joined with blank lines.
  The context is then cut to 3000 characters, keeping the longest leading run
  of whole pieces that fits, the two-character separators included. When not
  even the first piece fits, the cut is hard.
- **Answer cache** (`_query_cache`, `_get_query_hash`, module `Cache`): a
  dictionary that remembers insertion order, keyed by the lower-cased,
  stripped question and the first 500 characters of the context. It holds at
  most 100 entries. A store that goes past the cap drops the oldest key. The
  lookup uses the key of the whole context, but the store uses the key of the
  truncated context. The model keeps that as written and proves when a
  repeated question hits the cache and when it never can.
- **Generation** (`generate_answer`, module `Generator`):
  - no chunks gives the not-found sentence;
  - a cache hit gives the stored answer;
  - otherwise the model is called with the prompt;
  - a response that strips to fewer than 10 characters becomes the not-found
    sentence;
  - the response is restructured, stored and returned;
  - an exception from the model call becomes an error answer carrying its
    message.
- **Restructuring** (`_improve_answer_structure`, module `Structure`): unless
  the answer contains "I cannot find the answer", its lines are scanned with
  an in-list flag. `-` and `*` items are stripped and get a bullet prefix.
  Numbered items are stripped. An empty line opens and closes each run of
  items. The result is joined and stripped.
- **Display** (`format_answer` in app.py, module `Display`): a not-found
  answer gets a cross mark in front. Any other answer is stripped, and an
  empty line goes before an item that follows a non-blank non-item line and
  before a non-item that follows an item. The lines themselves are kept as
  they are.

The generator's bullet prefix is the three characters U+00E2 U+20AC U+00A2
and a space: the UTF-8 bytes of a bullet read as Windows-1252. The display
recognises the real bullet U+2022. So lines bulleted by the generator are not
display list items. `Display.GeneratorBulletsAreNotItems` states this.

Each loop of the source is a method proved against a specification function:
- `RetrieveContext` against `Retrieved`;
- `TruncateContext` against `Truncated`;
- `AssembleContext` against `ContextOf`;
- `ImproveStructure` against `Improved`;
- `FormatAnswer` against `Formatted`.

The lemmas beside each function state what the source promises. The cache is
a class whose fields the store updates in place, proved against the value
function `Cache.Put`. `GenerateAnswer` works over that object and is proved
against the function `Generate`.

A 3000-character budget does not hold two 1500-character pieces: the
truncation counts the separator after each kept piece against the budget, so
only the first of them is kept (`Truncation.SeparatorCountsAgainstBudget`).

## Model

| member | source | states |
|---|---|---|
| Retriever.Similarity | rag/retriever.py:8 | the similarity of a non-negative distance lies in (0, 1], and is 1 for distance 0 |
| Retriever.Passing | rag/retriever.py:7-10 | the filter never returns more documents than there were candidates |
| Retriever.RetrieveContext | rag/retriever.py:1-15 | the scan with its early exit returns exactly `Retrieved`: the first `k` passing documents, or the first `k` candidates unfiltered when fewer pass, or (for `k <= 0`) the first candidate if it passes |
| Retriever.ScanStops | rag/retriever.py:11-12 | when the scan breaks after the candidate that brings the count to `k`, what it has gathered is the answer |
| Retriever.PassingPrefix | rag/retriever.py:7-10 | filtering a leading run of candidates gives a leading run of the filtered documents, at most one longer per extra candidate |
| Retriever.PassingKeepsRelevant | rag/retriever.py:7-10 | when every candidate passes, all their documents are kept in order; when none passes, none is kept |
| Retriever.RelevantIffClose | rag/retriever.py:8-9 | for a positive threshold `t`, a candidate passes exactly when its distance is at most `1/t - 1` |
| Retriever.DefaultRelevance | rag/retriever.py:1-9 | with the default threshold 0.25, a candidate passes exactly when its distance is at most 3 |
| Retriever.PassingIsSubsequence | rag/retriever.py:6-10 | the filtered documents are a subsequence of the candidates' documents, in order |
| Retriever.RetrievedSize | rag/retriever.py:11-15 | for positive `k`, at most `k` documents, exactly `k` when at least `k` candidates came back, and none exactly when no candidate came back; for `k <= 0`, at most one |
| Retriever.RetrievedChoice | rag/retriever.py:15 | with at least `k` passing, the answer is `k` documents forming a leading run of the passing ones (the first `k`); otherwise it has `min(k, len(results))` documents, position `i` being candidate `i`'s |
| Retriever.RetrievedIsSubsequence | rag/retriever.py:6-15 | in every case the documents returned come from the candidates in their original order |
| Truncation.PyPrefix | rag/generator.py:39 | `s[:n]` is a prefix of `s` of at most `n` characters |
| Truncation.KeptFrom | rag/generator.py:32-37 | every leading run up to the count fits in the budget, separators included, and the next longer run does not |
| Truncation.TruncateContext | rag/generator.py:22-39 | the scan with its running length `current_len` returns `Truncated(text, budget)` |
| Truncation.RunLength | rag/generator.py:33-35 | the running length, which adds 2 after each kept piece, plus the next piece's length is the length of the joined run with that piece |
| Truncation.TruncatedIsBoundedPrefix | rag/generator.py:22-39 | the result never exceeds a non-negative budget, is always a prefix of the input, and a text within budget comes back unchanged |
| Truncation.LongestLeadingRun | rag/generator.py:28-39 | when some piece fits, the result is the join of the longest leading run that fits; no longer run fits, so no piece is skipped for a later one |
| Truncation.NoPieceFits | rag/generator.py:39 | when the first piece alone exceeds the budget, the result is the first `budget` characters |
| Truncation.SeparatorCountsAgainstBudget | rag/generator.py:33-35 | two 1500-character pieces without line feeds, separated by a blank line, truncate to the first piece alone |
| Context.AssembleContext | rag/generator.py:47-53 | the numbering loop builds exactly `ContextOf(contents)`, the sections joined by blank lines |
| Context.SectionsRecoverable | rag/generator.py:48-53 | when every chunk has content and none holds a blank line, splitting the context at blank lines gives back exactly its sections |
| Context.TruncationKeepsWholeSections | rag/generator.py:53-60 | for such chunks, truncation of an over-long context keeps the context of the first chunks that fit |
| Context.KeyIgnoresCaseAndTail | rag/generator.py:16-19 | the cache key ignores letter case of the question and anything after the first 500 characters of the context |
| Context.StoreKeyMatchesLookupKey | rag/generator.py:55-93 | the store key equals the lookup key when at least 500 characters survive truncation |
| Context.StoreKeyMismatch | rag/generator.py:55-93 | the store key differs from the lookup key whenever truncation changed the context and left fewer than 500 characters |
| Context.PromptCarriesContextAndQuery | rag/generator.py:63-79 | the prompt contains the truncated context and the question as typed |
| Cache.KeyCount | rag/generator.py:5 | the insertion order lists as many keys as the dictionary holds |
| Cache.PutKnown | rag/generator.py:93 | storing under a known key replaces its answer and keeps the insertion order |
| Cache.PutNew | rag/generator.py:93-95 | storing under a new key appends it; when the cache held 100 entries the first key in insertion order is dropped |
| Cache.PutValid | rag/generator.py:91-95 | a store keeps keys distinct, the order and dictionary in step, and at most 100 entries |
| Cache.PutSpec | rag/generator.py:91-95 | after a store the key maps to the answer, every other remaining key keeps its answer, the size is at most 100, and the only key ever dropped is the oldest |
| Cache.KeepsNewest | rag/generator.py:93-95 | storing distinct keys into an empty cache leaves exactly the newest 100, oldest first (first in, first out) |
| Cache.HundredAndFirstEvictsFirst | rag/generator.py:94-95 | the 101st distinct key evicts the first one and keeps the other 100 |
| Cache.QueryCache.constructor | rag/generator.py:5 | the cache starts empty and valid |
| Cache.QueryCache.Lookup | rag/generator.py:57-58 | a hit exactly when the key is stored, with the stored answer |
| Cache.QueryCache.Store | rag/generator.py:93-95 | the new state is `Put` of the old one and the cache stays valid |
| Generator.ErrorAnswer | rag/generator.py:98-99 | the error answer is the fixed lead, the exception's message, and a closing parenthesis |
| Generator.Generate | rag/generator.py:42-99 | every call leaves a valid cache of at most 100 entries |
| Generator.GenerateAnswer | rag/generator.py:42-99 | the call over the shared cache returns `Generate`'s answer and leaves the cache in `Generate`'s state, still valid |
| Generator.NotFoundSentenceHasMarker | rag/generator.py:102-105 | the not-found sentence contains the marker, so restructuring leaves it unchanged |
| Generator.CleanResponseTrimmed | rag/generator.py:82-86 | the cleaned response has no outer whitespace and at least 10 characters |
| Generator.NoDocuments | rag/generator.py:44-45 | no chunks: the not-found sentence, the cache untouched, the same reply whatever the model |
| Generator.CacheHit | rag/generator.py:55-58 | a cached question: the stored answer, the cache untouched, the same reply whatever the model |
| Generator.ModelFailure | rag/generator.py:81-99 | a failing model call gives the error answer for its message and leaves the cache untouched |
| Generator.CompletionAnswer | rag/generator.py:82-89 | the answer made from a completion is trimmed, and a completion stripping to under 10 characters becomes the not-found sentence |
| Generator.ModelSuccess | rag/generator.py:81-97 | a completion gives the cleaned, restructured response; with the cache on it is stored under the truncated context's key, with it off the cache is untouched; at most 100 entries |
| Generator.RepeatQueryHits | rag/generator.py:55-95 | asking again after a stored answer returns that answer without calling the model, when at least 500 characters of context survive truncation or truncation leaves the context unchanged |
| Generator.RepeatQueryMisses | rag/generator.py:55-95 | when truncation cut the context below 500 characters, the stored answer is never found by the next identical call |
| Structure.ImproveStructure | rag/generator.py:102-133 | the scan with the in-list flag returns exactly `Improved(answer)` |
| Structure.ScanStep | rag/generator.py:111-131 | per kind of line what one step appends: an empty line for a blank line, an opening empty line before a first item, a closing one before a plain line after an item, and the rewritten line |
| Structure.LayoutKeepsEveryLine | rag/generator.py:111-131 | deleting the inserted empty lines leaves one output line per input line, each its rewriting, in order |
| Structure.LayoutWellSpaced | rag/generator.py:113-131 | an inserted empty line is never last and never follows another inserted one |
| Structure.LayoutStep | rag/generator.py:111-131 | one line of input writes at most one empty line, then its rewriting |
| Structure.LayoutHasNoLineFeed | rag/generator.py:105-131 | when no rewritten line holds a line feed, no output line does, and a non-empty input gives output |
| Structure.ImprovedLines | rag/generator.py:105-133 | the text stripped to give the result, split at line feeds, is exactly the output lines; deleting the inserted ones gives one rewriting per input line, in order, and insertions only separate lines |
| Structure.ItemPrefixes | rag/generator.py:120-125 | `-`/`*` items become the bullet plus the stripped text, numbered items the stripped text, and a line starting with two digits is kept verbatim |
| Structure.ImprovedShape | rag/generator.py:102-133 | an answer with the marker passes unchanged; any other result has no outer whitespace |
| Display.Classify | app.py:25-30 | the formatter always writes the line itself, whatever its kind |
| Display.FormatAnswer | app.py:12-40 | the scan with `prev_was_list` returns exactly `Formatted(answer)` |
| Display.ScanGap | app.py:32-35 | the scan's test on the last line written asks for an empty line exactly where the layout inserts one, and `is_list_item` is the item classification |
| Display.LayoutStep | app.py:32-37 | one step writes at most one empty line, then the line |
| Display.GapRule | app.py:27-35 | an empty line precedes line `i` exactly when it is an item after a non-blank non-item, or a non-item after an item |
| Display.ClassifyCases | app.py:26-30 | a line is an item exactly when its stripped text is a display item, and plain exactly when it is neither an item nor blank |
| Display.LayoutKeepsEveryLine | app.py:37 | deleting the inserted empty lines gives back the input lines, in order |
| Display.LayoutWellSpaced | app.py:32-37 | an inserted empty line is never last and never follows another, and the first line written is the first input line |
| Display.LayoutHasNoLineFeed | app.py:21-37 | no output line holds a line feed |
| Display.FormattedLines | app.py:18-40 | the formatted answer split at line feeds is the layout's lines; deleting the inserted ones gives the stripped answer's lines; insertions only separate lines |
| Display.LayoutOfLines | app.py:25-38 | the layout of non-empty input keeps every line in order, is well spaced and starts with the first line |
| Display.RenderedLinesRoundTrip | app.py:21-40 | joining the output lines with line feeds and splitting again gives them back |
| Display.NotFoundShown | app.py:14-15 | a not-found answer is shown behind the cross mark and is otherwise unchanged |
| Display.GeneratorBulletsAreNotItems | app.py:27-30 | the generator's bullet prefix is not a display item, while `-`, `*` and numbered items are |

## Left out

- The MD5 digest in `_get_query_hash` is left out. The key is the pair (stripped lower-cased query, first 500 characters of the context) rather than the string `query + ":" + context[:500]` that is digested, and the digest is treated as injective, so hash collisions are not modelled. Joining with `:` is not injective in general, but it is on the keys that occur: every context begins with `[Section 1]`, so two different pairs giving the same string would need a lower-cased query to contain `[S`, which lower-casing rules out.
- `get_llm` and the Ollama client are left out. The model call is a function parameter from prompt to completion or exception message, and no model call is expressed as "the reply is the same whatever the model".
- The FAISS search (`similarity_search_with_score` with `k*2` candidates) is left out. Its results are the input of `Retriever.RetrieveContext`.
- Retriever.Similarity: distances are non-negative mathematical reals. IEEE floating-point rounding is not modelled, nor is a negative distance such as -1 that would divide by zero.
- Python's `strip`, `lower` and `isdigit` are modelled for ASCII only. The whitespace set is characters 9-13, 28-31 and space; only `A`-`Z` are lower-cased; only `0`-`9` are digits. Unicode whitespace, case mappings and digits are not modelled.
- Exceptions other than the model call's are not modelled, for example from the cache or from `str(e)`. `str(e)` is the message string of the failure.
- Dictionary hashing and iteration are not modelled. The cache is an insertion-ordered key sequence with a map, which is what `next(iter(_query_cache))` relies on.
- The Streamlit page and the document pipeline are outside this model: `rag/loader.py`, `rag/embeddings.py`, the splitter and `rag/__init__.py`.
- Concurrency between Streamlit sessions sharing the module-level cache is not modelled.

