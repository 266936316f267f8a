/** The texts `generate_answer` (rag/generator.py) builds around the model
    call: the numbered context, the cache key (`_get_query_hash`) and the
    prompt. */
module Context {
  import opened Text
  import opened Truncation

  /** The heading of the `i`-th section, counting from 1. */
  function SectionLabel(i: nat): String {
    "[Section " + NatToString(i) + "]\n"
  }

  /** The `i`-th section: its heading, then the chunk's content stripped. */
  function Section(i: nat, content: String): String {
    SectionLabel(i) + Strip(content)
  }

  /** The sections of the retrieved chunks, numbered from 1 in input order. */
  function SectionsOf(contents: seq<String>): seq<String> {
    seq(|contents|, i requires 0 <= i < |contents| => Section(i + 1, contents[i]))
  }

  /** The context text: the sections separated by blank lines. */
  function ContextOf(contents: seq<String>): String {
    Join(Sep, SectionsOf(contents))
  }

  /** The loop that numbers the chunks and collects the sections. */
  method AssembleContext(contents: seq<String>) returns (text: String)
    ensures text == ContextOf(contents)
  {
    var parts: seq<String> := [];
    ghost var sections := SectionsOf(contents);
    for i := 0 to |contents|
      invariant parts == sections[..i]
    {
      assert sections[..i + 1] == sections[..i] + [Section(i + 1, contents[i])];
      parts := parts + [Section(i + 1, contents[i])];
    }
    assert sections[..|contents|] == sections;
    text := Join(Sep, parts);
  }

  /** The sections of the first `n` chunks are the first `n` sections. */
  lemma SectionsPrefix(contents: seq<String>, n: nat)
    requires n <= |contents|
    ensures SectionsOf(contents[..n]) == SectionsOf(contents)[..n]
  {
  }

  /** A blank line inside `a + b` lies inside `a`, inside `b`, or straddles
      the line feed ending `a` and the one starting `b`. */
  lemma {:induction false} BlankLineInConcat(a: String, b: String)
    requires Contains(a + b, Sep)
    ensures Contains(a, Sep) || Contains(b, Sep) || (|a| > 0 && |b| > 0 && a[|a| - 1] == '\n' && b[0] == '\n')
    decreases |a|
  {
    var s := a + b;
    if |a| == 0 {
      assert s == b;
    } else if |Sep| <= |s| && s[..|Sep|] == Sep {
      if |a| >= 2 {
        assert a[..2] == s[..2];
      } else {
        assert s[0] == s[..2][0] == '\n' && s[1] == s[..2][1] == '\n';
        assert a[0] == s[0] && b[0] == s[1];
      }
    } else {
      assert s[1..] == a[1..] + b;
      BlankLineInConcat(a[1..], b);
      if Contains(a[1..], Sep) {
        assert |a| > 0;
      }
    }
  }

  /** A section heading holds no line feed before its last character. */
  lemma LabelHasOneLineFeed(i: nat)
    ensures forall j :: 0 <= j < |SectionLabel(i)| - 1 ==> SectionLabel(i)[j] != '\n'
    ensures SectionLabel(i)[|SectionLabel(i)| - 1] == '\n'
  {
    var d := NatToString(i);
    var heading := SectionLabel(i);
    forall j | 0 <= j < |heading| - 1
      ensures heading[j] != '\n'
    {
      if 9 <= j < 9 + |d| {
        assert heading[j] == d[j - 9];
      }
    }
  }

  /** A section whose stripped content is non-empty and holds no blank line
      cannot start a blank line anywhere, even running into the separator
      after it. */
  lemma SectionHasNoBlankLine(i: nat, content: String)
    requires Strip(content) != [] && !Contains(Strip(content), Sep)
    ensures !Contains(Section(i, content) + Sep[..|Sep| - 1], Sep)
  {
    var heading := SectionLabel(i);
    var s := Strip(content);
    var tail := s + "\n";
    assert Sep[..|Sep| - 1] == "\n";
    assert Section(i, content) + "\n" == heading + tail;
    LabelHasOneLineFeed(i);
    NoBlankLine(heading);
    NoBlankLine("\n");
    if Contains(tail, Sep) {
      BlankLineInConcat(s, "\n");
      assert false;
    }
    if Contains(heading + tail, Sep) {
      BlankLineInConcat(heading, tail);
      assert false;
    }
  }

  /** When every chunk has content and none holds a blank line, cutting the
      context at blank lines gives back exactly its sections. */
  lemma SectionsRecoverable(contents: seq<String>)
    requires |contents| > 0
    requires forall i :: 0 <= i < |contents| ==> Strip(contents[i]) != [] && !Contains(Strip(contents[i]), Sep)
    ensures Split(ContextOf(contents), Sep) == SectionsOf(contents)
  {
    var parts := SectionsOf(contents);
    forall i | 0 <= i < |parts|
      ensures !Contains(parts[i] + Sep[..|Sep| - 1], Sep)
    {
      SectionHasNoBlankLine(i + 1, contents[i]);
    }
    SplitJoin(parts, Sep);
  }

  /** For such chunks, truncation keeps a leading run of whole sections (or
      cuts hard when not even the first section fits). */
  lemma TruncationKeepsWholeSections(contents: seq<String>, budget: int)
    requires |contents| > 0
    requires forall i :: 0 <= i < |contents| ==> Strip(contents[i]) != [] && !Contains(Strip(contents[i]), Sep)
    requires |ContextOf(contents)| > budget
    requires KeptCount(SectionsOf(contents), budget) > 0
    ensures Truncated(ContextOf(contents), budget) == ContextOf(contents[..KeptCount(SectionsOf(contents), budget)])
  {
    SectionsRecoverable(contents);
    SectionsPrefix(contents, KeptCount(SectionsOf(contents), budget));
  }

  /** The cache key: the query lower-cased and stripped, with the first 500
      characters of the context.  The digest of the pair is left out and the
      pair itself is the key. */
  datatype CacheKey = CacheKey(query: String, contextHead: String)

  const KeyContextLength: int := 500

  function KeyOf(query: String, context: String): CacheKey {
    CacheKey(Strip(Lower(query)), PyPrefix(context, KeyContextLength))
  }

  /** Lower-casing twice changes nothing more. */
  lemma LowerIdempotent(s: String)
    ensures Lower(Lower(s)) == Lower(s)
  {
  }

  /** The key does not see letter case, nor anything after the first 500
      characters of the context. */
  lemma KeyIgnoresCaseAndTail(query: String, context: String, more: String)
    ensures KeyOf(Lower(query), context) == KeyOf(query, context)
    ensures |context| >= KeyContextLength ==> KeyOf(query, context + more) == KeyOf(query, context)
  {
    LowerIdempotent(query);
    if |context| >= KeyContextLength {
      assert (context + more)[..KeyContextLength] == context[..KeyContextLength];
    }
  }

  /** The answer is stored under the key of the truncated context but looked
      up under the key of the whole one.  The two keys agree when at least
      500 characters survive truncation... */
  lemma StoreKeyMatchesLookupKey(query: String, context: String)
    requires |Truncated(context, DefaultBudget)| >= KeyContextLength
    ensures KeyOf(query, Truncated(context, DefaultBudget)) == KeyOf(query, context)
  {
    var t := Truncated(context, DefaultBudget);
    TruncatedIsBoundedPrefix(context, DefaultBudget);
    assert t[..KeyContextLength] == context[..KeyContextLength];
  }

  /** ...and differ whenever truncation cut the context and left fewer than
      500 characters, so the stored answer is never found again. */
  lemma StoreKeyMismatch(query: String, context: String)
    requires Truncated(context, DefaultBudget) != context
    requires |Truncated(context, DefaultBudget)| < KeyContextLength
    ensures KeyOf(query, Truncated(context, DefaultBudget)) != KeyOf(query, context)
  {
    var t := Truncated(context, DefaultBudget);
    TruncatedIsBoundedPrefix(context, DefaultBudget);
    assert |PyPrefix(t, KeyContextLength)| == |t| < |PyPrefix(context, KeyContextLength)|;
  }

  /** The lines of the fixed wording before the context; the last one is
      the indentation the context follows. */
  const PromptLines: seq<String> := [
    "You are a helpful document Q&A assistant. Answer the question using ONLY the information from the context provided below.",
    "",
    "        INSTRUCTIONS:",
    "        1. Provide a clear, well-structured answer based on the context",
    "        2. Use proper paragraphs and formatting",
    "        3. If the answer involves multiple points, organize them clearly (use bullet points or numbered lists if appropriate)",
    "        4. Be specific and cite relevant details from the context",
    "        5. If the answer cannot be found in the context, respond with: \"I cannot find the answer to that question in the provided document.\"",
    "        6. Do NOT use any information outside the provided context",
    "        7. Make your answer comprehensive but concise",
    "",
    "        CONTEXT FROM DOCUMENT:",
    "        "
  ]

  const PromptHead: String := Join("\n", PromptLines)

  const QuestionHead: String := "\n\n        QUESTION: "
  const PromptTail: String := "\n\n        Provide a well-structured answer:"

  /** The prompt sent to the model. */
  function Prompt(context: String, query: String): String {
    PromptHead + context + QuestionHead + query + PromptTail
  }

  /** Text placed between two others is found in the whole. */
  lemma {:induction false} ContainsMiddle(a: String, sub: String, b: String)
    ensures Contains(a + sub + b, sub)
    decreases |a|
  {
    var s := a + sub + b;
    if |a| == 0 {
      assert s[..|sub|] == sub;
    } else {
      ContainsMiddle(a[1..], sub, b);
      assert s[1..] == a[1..] + sub + b;
    }
  }

  /** The prompt carries the whole (truncated) context and the query as
      typed. */
  lemma PromptCarriesContextAndQuery(context: String, query: String)
    ensures Contains(Prompt(context, query), context)
    ensures Contains(Prompt(context, query), query)
  {
    var head := PromptHead + context;
    ContainsMiddle(PromptHead, context, []);
    assert PromptHead + context + [] == head;
    ContainsExtend(head, QuestionHead, context);
    ContainsExtend(head + QuestionHead, query, context);
    ContainsExtend(head + QuestionHead + query, PromptTail, context);
    ContainsMiddle(head + QuestionHead, query, PromptTail);
  }
}
