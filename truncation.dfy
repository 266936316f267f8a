/** `truncate_context` (rag/generator.py): cut the context down to a
    character budget, keeping whole pieces between blank lines where it can. */
module Truncation {
  import opened Text

  /** The piece separator, a blank line. */
  const Sep: String := "\n\n"

  /** The budget `generate_answer` passes. */
  const DefaultBudget: int := 3000

  /** Python's `s[:n]`: a negative `n` counts from the end. */
  function PyPrefix(s: String, n: int): (r: String)
    ensures 0 <= n ==> |r| <= n
    ensures |r| <= |s| && r == s[..|r|]
  {
    if n >= 0 then (if n < |s| then s[..n] else s)
    else if |s| + n > 0 then s[..|s| + n] else []
  }

  /** The number of leading pieces kept once the first `j` are known to fit:
      the run grows while the joined text, separators included, stays within
      `budget`. */
  function KeptFrom(pieces: seq<String>, budget: int, j: nat): (n: nat)
    requires j <= |pieces|
    ensures j <= n <= |pieces|
    ensures forall m :: j < m <= n ==> |Join(Sep, pieces[..m])| <= budget
    ensures n < |pieces| ==> |Join(Sep, pieces[..n + 1])| > budget
    decreases |pieces| - j
  {
    if j < |pieces| && |Join(Sep, pieces[..j + 1])| <= budget then KeptFrom(pieces, budget, j + 1) else j
  }

  function KeptCount(pieces: seq<String>, budget: int): nat {
    KeptFrom(pieces, budget, 0)
  }

  /** What `truncate_context` returns: a text within the budget is returned
      as it is; otherwise the join of the leading pieces that fit, or, when
      not even the first piece fits, a hard cut at `budget` characters. */
  function Truncated(text: String, budget: int): String {
    if |text| <= budget then text
    else
      var pieces := Split(text, Sep);
      var n := KeptCount(pieces, budget);
      if n > 0 then Join(Sep, pieces[..n]) else PyPrefix(text, budget)
  }

  /** The scan with its running length `current_len`, which counts two
      characters for the separator after each kept piece. */
  method TruncateContext(text: String, budget: int) returns (r: String)
    ensures r == Truncated(text, budget)
  {
    if |text| <= budget {
      return text;
    }
    var chunks := Split(text, Sep);
    var result: seq<String> := [];
    var currentLen := 0;
    var j := 0;
    while j < |chunks|
      invariant 0 <= j <= |chunks|
      invariant result == chunks[..j]
      invariant currentLen == if j == 0 then 0 else |Join(Sep, chunks[..j])| + 2
      invariant KeptFrom(chunks, budget, j) == KeptCount(chunks, budget)
    {
      var chunk := chunks[j];
      RunLength(chunks, j);
      if currentLen + |chunk| <= budget {
        result := result + [chunk];
        currentLen := currentLen + |chunk| + 2;
        j := j + 1;
      } else {
        break;
      }
    }
    if result != [] {
      r := Join(Sep, result);
    } else {
      r := PyPrefix(text, budget);
    }
  }

  /** The running length plus the next piece is the length of the joined run
      with that piece added. */
  lemma RunLength(pieces: seq<String>, j: nat)
    requires j < |pieces|
    ensures |Join(Sep, pieces[..j + 1])| == (if j == 0 then 0 else |Join(Sep, pieces[..j])| + 2) + |pieces[j]|
  {
    assert pieces[..j + 1] == pieces[..j] + [pieces[j]];
    if j > 0 {
      JoinSnoc(Sep, pieces[..j], pieces[j]);
    } else {
      assert pieces[..1] == [pieces[0]];
    }
  }

  /** The result never exceeds a non-negative budget, always begins the
      input, and a text within the budget comes back unchanged. */
  lemma TruncatedIsBoundedPrefix(text: String, budget: int)
    ensures 0 <= budget ==> |Truncated(text, budget)| <= budget
    ensures Truncated(text, budget) == text[..|Truncated(text, budget)|]
    ensures |text| <= budget ==> Truncated(text, budget) == text
  {
    if |text| > budget {
      var pieces := Split(text, Sep);
      var n := KeptCount(pieces, budget);
      if n > 0 {
        JoinPrefix(Sep, pieces, n);
      }
    }
  }

  /** When some piece fits, the result is the join of the longest leading
      run of pieces that fits: every shorter run fits too, and no longer run
      does, so the scan never skips a piece to take a later one. */
  lemma {:induction false} LongestLeadingRun(text: String, budget: int)
    requires |text| > budget
    requires KeptCount(Split(text, Sep), budget) > 0
    ensures var pieces := Split(text, Sep); var n := KeptCount(pieces, budget);
      && Truncated(text, budget) == Join(Sep, pieces[..n])
      && (forall m :: 1 <= m <= n ==> |Join(Sep, pieces[..m])| <= budget)
      && (forall m :: n < m <= |pieces| ==> |Join(Sep, pieces[..m])| > budget)
  {
    var pieces := Split(text, Sep);
    var n := KeptCount(pieces, budget);
    forall m | n < m <= |pieces|
      ensures |Join(Sep, pieces[..m])| > budget
    {
      JoinLengthGrows(Sep, pieces, n + 1, m);
    }
  }

  /** When not even the first piece fits, the result is the first `budget`
      characters. */
  lemma NoPieceFits(text: String, budget: int)
    requires 0 <= budget < |text|
    requires |Split(text, Sep)[0]| > budget
    ensures Truncated(text, budget) == text[..budget]
  {
    var pieces := Split(text, Sep);
    assert pieces[..1] == [pieces[0]];
  }

  /** A line with no line feed before its last character holds no blank
      line. */
  lemma {:induction false} NoBlankLine(s: String)
    requires forall i :: 0 <= i < |s| - 1 ==> s[i] != '\n'
    ensures !Contains(s, Sep)
    decreases |s|
  {
    if |s| > 0 {
      if |s| >= 2 {
        assert s[..2][0] == s[0] != Sep[0];
      }
      assert forall i :: 0 <= i < |s[1..]| - 1 ==> s[1..][i] == s[i + 1];
      NoBlankLine(s[1..]);
    }
  }

  /** The separator counts against the budget: two pieces of 1500 characters
      each do not both fit in 3000, only the first is kept. */
  lemma SeparatorCountsAgainstBudget(a: String, b: String)
    requires |a| == 1500 && |b| == 1500
    requires forall i :: 0 <= i < |a| ==> a[i] != '\n'
    requires forall i :: 0 <= i < |b| ==> b[i] != '\n'
    ensures Truncated(a + Sep + b, DefaultBudget) == a
  {
    var parts := [a, b];
    NoBlankLine(a + "\n");
    NoBlankLine(b + "\n");
    assert Sep[..|Sep| - 1] == "\n";
    SplitJoin(parts, Sep);
    assert parts[1..] == [b];
    assert Join(Sep, parts) == a + Sep + b;
    assert parts[..1] == [a];
    assert parts[..2] == parts;
  }
}
