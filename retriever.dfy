/** `retrieve_context` (rag/retriever.py): from the candidates a vector
    search returned, best first, keep those similar enough to the query,
    stop at `k` of them, and fall back to the first `k` candidates
    unfiltered when too few pass. */
module Retriever {

  /** The distance the vector store reports for a candidate (a squared L2
      distance, never negative). */
  type Distance = r: real | 0.0 <= r

  /** One search hit: a document and its distance to the query. */
  datatype Candidate<D> = Candidate(doc: D, score: Distance)

  const DefaultThreshold: real := 0.25

  /** The similarity `1 / (1 + score)`: 1 for an exact match, falling towards
      0 as the distance grows. */
  function Similarity(score: Distance): (s: real)
    ensures 0.0 < s <= 1.0
    ensures score == 0.0 ==> s == 1.0
  {
    1.0 / (1.0 + score)
  }

  predicate Relevant<D>(c: Candidate<D>, threshold: real) {
    Similarity(c.score) >= threshold
  }

  /** The documents of the candidates, in order. */
  function DocsOf<D>(cands: seq<Candidate<D>>): seq<D> {
    seq(|cands|, i requires 0 <= i < |cands| => cands[i].doc)
  }

  /** The documents of the relevant candidates, in candidate order. */
  function Passing<D>(cands: seq<Candidate<D>>, threshold: real): (r: seq<D>)
    ensures |r| <= |cands|
    decreases |cands|
  {
    if |cands| == 0 then []
    else
      var last := cands[|cands| - 1];
      Passing(cands[..|cands| - 1], threshold) + (if Relevant(last, threshold) then [last.doc] else [])
  }

  /** What `retrieve_context` returns for the search results `results`.  The
      scan checks the length only after the first candidate, so a `k` of 0
      or less returns the first candidate when it passes and nothing
      otherwise.  For a positive `k`, the first `k` passing documents when
      there are that many, and otherwise the first `k` documents unfiltered. */
  ghost function Retrieved<D>(results: seq<Candidate<D>>, k: int, threshold: real): seq<D> {
    var passing := Passing(results, threshold);
    if k <= 0 then Passing(results[..if |results| == 0 then 0 else 1], threshold)
    else if |passing| >= k then passing[..k]
    else DocsOf(results[..if k < |results| then k else |results|])
  }

  /** The scan over the search results, with its early exit. */
  method RetrieveContext<D>(results: seq<Candidate<D>>, k: int, threshold: real) returns (docs: seq<D>)
    ensures docs == Retrieved(results, k, threshold)
  {
    var filtered: seq<D> := [];
    var i := 0;
    while i < |results|
      invariant 0 <= i <= |results|
      invariant filtered == Passing(results[..i], threshold)
      invariant i > 0 ==> |filtered| < k
    {
      var c := results[i];
      if Similarity(c.score) >= threshold {
        filtered := filtered + [c.doc];
      }
      assert results[..i + 1][..i] == results[..i];
      i := i + 1;
      if |filtered| >= k {
        ScanStops(results, i, k, threshold);
        break;
      }
    }
    assert results[..|results|] == results;
    if |filtered| >= k {
      docs := filtered;
    } else {
      docs := DocsOf(results[..if k < |results| then k else |results|]);
    }
  }

  /** The scan stops after candidate `i - 1` when that candidate brings the
      count to `k`: what it has gathered is then the answer. */
  lemma ScanStops<D>(results: seq<Candidate<D>>, i: nat, k: int, threshold: real)
    requires 0 < i <= |results|
    requires |Passing(results[..i], threshold)| >= k
    requires i > 1 ==> |Passing(results[..i - 1], threshold)| < k
    ensures Passing(results[..i], threshold) == Retrieved(results, k, threshold)
  {
    PassingPrefix(results, i, threshold);
    if k <= 0 {
      assert i == 1;
    }
  }

  /** Filtering a leading run of the candidates gives a leading run of the
      filtered documents, one longer at most for each extra candidate. */
  lemma {:induction false} PassingPrefix<D>(cands: seq<Candidate<D>>, n: nat, threshold: real)
    requires n <= |cands|
    ensures |Passing(cands[..n], threshold)| <= |Passing(cands, threshold)|
    ensures Passing(cands[..n], threshold) == Passing(cands, threshold)[..|Passing(cands[..n], threshold)|]
    ensures n > 0 ==> |Passing(cands[..n], threshold)| <= |Passing(cands[..n - 1], threshold)| + 1
    decreases |cands| - n
  {
    if n < |cands| {
      PassingPrefix(cands, n + 1, threshold);
      assert cands[..n + 1][..n] == cands[..n];
    } else {
      assert cands[..n] == cands;
    }
    if n > 0 {
      assert cands[..n][..n - 1] == cands[..n - 1];
    }
  }

  /** When every candidate passes, the filter keeps all their documents, in
      order; when none passes, it keeps nothing. */
  lemma {:induction false} PassingKeepsRelevant<D>(cands: seq<Candidate<D>>, threshold: real)
    ensures (forall i :: 0 <= i < |cands| ==> Relevant(cands[i], threshold)) ==> Passing(cands, threshold) == DocsOf(cands)
    ensures (forall i :: 0 <= i < |cands| ==> !Relevant(cands[i], threshold)) ==> Passing(cands, threshold) == []
    decreases |cands|
  {
    if |cands| > 0 {
      var init := cands[..|cands| - 1];
      PassingKeepsRelevant(init, threshold);
      assert forall i :: 0 <= i < |init| ==> init[i] == cands[i];
      assert DocsOf(cands) == DocsOf(init) + [cands[|cands| - 1].doc];
    }
  }

  /** For a positive threshold `t`, a candidate passes exactly when its
      distance is at most `1/t - 1`. */
  lemma RelevantIffClose<D>(c: Candidate<D>, threshold: real)
    requires threshold > 0.0
    ensures Relevant(c, threshold) <==> c.score <= 1.0 / threshold - 1.0
  {
    var d := 1.0 + c.score;
    var sim := Similarity(c.score);
    assert sim * d == 1.0;
    assert (1.0 / threshold) * threshold == 1.0;
    if Relevant(c, threshold) {
      assert (sim - threshold) * d >= 0.0;
      assert 1.0 >= threshold * d;
      assert d * threshold <= 1.0;
    }
    if c.score <= 1.0 / threshold - 1.0 {
      assert d <= 1.0 / threshold;
      assert threshold * d <= 1.0;
      assert (sim - threshold) * d >= 0.0;
    }
  }

  /** With the default threshold of 0.25 a candidate passes exactly when its
      distance is at most 3. */
  lemma DefaultRelevance<D>(c: Candidate<D>)
    ensures Relevant(c, DefaultThreshold) <==> c.score <= 3.0
  {
    RelevantIffClose(c, DefaultThreshold);
    assert 1.0 / DefaultThreshold == 4.0;
  }

  /** `b` contains the elements of `a` in the same order (matching from the
      end, which finds a match whenever one exists). */
  predicate IsSubsequence<T(==)>(a: seq<T>, b: seq<T>)
    decreases |b|
  {
    if |a| == 0 then true
    else if |b| == 0 then false
    else if a[|a| - 1] == b[|b| - 1] then IsSubsequence(a[..|a| - 1], b[..|b| - 1])
    else IsSubsequence(a, b[..|b| - 1])
  }

  /** A leading run of a subsequence is a subsequence. */
  lemma {:induction false} SubsequencePrefix<T>(a: seq<T>, b: seq<T>, j: nat)
    requires IsSubsequence(a, b) && j <= |a|
    ensures IsSubsequence(a[..j], b)
    decreases |b|
  {
    if j > 0 && |b| > 0 {
      var b' := b[..|b| - 1];
      if a[|a| - 1] == b[|b| - 1] {
        SubsequencePrefix(a[..|a| - 1], b', j - 1);
        assert a[..|a| - 1][..j - 1] == a[..j][..j - 1];
        if j < |a| {
          SubsequencePrefix(a[..|a| - 1], b', j);
          assert a[..|a| - 1][..j] == a[..j];
        }
      } else {
        SubsequencePrefix(a, b', j - 1);
        SubsequencePrefix(a, b', j);
        assert a[..j][..j - 1] == a[..j - 1];
      }
    }
  }

  /** A leading run of a sequence is a subsequence of it. */
  lemma {:induction false} PrefixIsSubsequence<T>(b: seq<T>, n: nat)
    requires n <= |b|
    ensures IsSubsequence(b[..n], b)
    decreases |b|
  {
    if n == |b| {
      SubsequenceReflexive(b);
      assert b[..n] == b;
    } else {
      PrefixIsSubsequence(b[..|b| - 1], n);
      assert b[..|b| - 1][..n] == b[..n];
      if n > 0 && b[n - 1] == b[|b| - 1] {
        SubsequencePrefix(b[..n], b[..|b| - 1], n - 1);
        assert b[..n][..n - 1] == b[..n - 1];
      }
    }
  }

  lemma {:induction false} SubsequenceReflexive<T>(b: seq<T>)
    ensures IsSubsequence(b, b)
    decreases |b|
  {
    if |b| > 0 {
      SubsequenceReflexive(b[..|b| - 1]);
    }
  }

  /** The filtered documents come from the candidates, in order. */
  lemma {:induction false} PassingIsSubsequence<D>(cands: seq<Candidate<D>>, threshold: real)
    ensures IsSubsequence(Passing(cands, threshold), DocsOf(cands))
    decreases |cands|
  {
    if |cands| > 0 {
      var init := cands[..|cands| - 1];
      var last := cands[|cands| - 1];
      PassingIsSubsequence(init, threshold);
      var docs := DocsOf(cands);
      assert docs[..|docs| - 1] == DocsOf(init);
      var p := Passing(cands, threshold);
      if Relevant(last, threshold) {
        assert p[..|p| - 1] == Passing(init, threshold);
      } else {
        assert p == Passing(init, threshold);
        SubsequenceDropLast(p, docs);
      }
    }
  }

  /** A subsequence of the leading part is a subsequence of the whole. */
  lemma {:induction false} SubsequenceDropLast<T>(a: seq<T>, b: seq<T>)
    requires |b| > 0 && IsSubsequence(a, b[..|b| - 1])
    ensures IsSubsequence(a, b)
    decreases |b|
  {
    if |a| > 0 && a[|a| - 1] == b[|b| - 1] {
      var b' := b[..|b| - 1];
      SubsequenceLastOptional(a, b');
    }
  }

  /** Dropping the last element of a subsequence keeps it a subsequence. */
  lemma {:induction false} SubsequenceLastOptional<T>(a: seq<T>, b: seq<T>)
    requires |a| > 0 && IsSubsequence(a, b)
    ensures IsSubsequence(a[..|a| - 1], b)
  {
    SubsequencePrefix(a, b, |a| - 1);
  }

  /** For a positive `k` at most `k` documents come back, exactly `k` when the
      search returned at least `k` candidates; for `k` of 0 or less, at most
      one; no candidates, no documents, and for a positive `k` the answer is
      empty only then. */
  lemma RetrievedSize<D>(results: seq<Candidate<D>>, k: int, threshold: real)
    ensures k >= 1 ==> |Retrieved(results, k, threshold)| <= k
    ensures k >= 1 && |results| >= k ==> |Retrieved(results, k, threshold)| == k
    ensures k <= 0 ==> |Retrieved(results, k, threshold)| <= 1
    ensures results == [] ==> Retrieved(results, k, threshold) == []
    ensures k >= 1 ==> (Retrieved(results, k, threshold) == [] <==> results == [])
  {
  }

  /** When at least `k` candidates pass, the answer is the first `k` passing
      documents: `k` of them, and a leading run of all that pass.  Otherwise
      it is the documents of the first `k` candidates, unfiltered, or of all
      of them when there are fewer. */
  lemma RetrievedChoice<D>(results: seq<Candidate<D>>, k: int, threshold: real)
    requires k >= 1
    ensures |Passing(results, threshold)| >= k ==>
      |Retrieved(results, k, threshold)| == k &&
      Retrieved(results, k, threshold) <= Passing(results, threshold)
    ensures |Passing(results, threshold)| < k ==>
      |Retrieved(results, k, threshold)| == (if k < |results| then k else |results|) &&
      forall i :: 0 <= i < |Retrieved(results, k, threshold)| ==> Retrieved(results, k, threshold)[i] == results[i].doc
  {
  }

  /** Whatever the case, the documents returned come from the candidates in
      their original order. */
  lemma RetrievedIsSubsequence<D>(results: seq<Candidate<D>>, k: int, threshold: real)
    ensures IsSubsequence(Retrieved(results, k, threshold), DocsOf(results))
  {
    var p := Passing(results, threshold);
    var docs := DocsOf(results);
    if k <= 0 {
      var n := if |results| == 0 then 0 else 1;
      PassingIsSubsequence(results[..n], threshold);
      assert DocsOf(results[..n]) == docs[..n];
      PrefixIsSubsequence(docs, n);
      SubsequenceTransitive(Passing(results[..n], threshold), docs[..n], docs);
    } else if |p| >= k {
      PassingIsSubsequence(results, threshold);
      SubsequencePrefix(p, docs, k);
    } else {
      var n := if k < |results| then k else |results|;
      assert DocsOf(results[..n]) == docs[..n];
      PrefixIsSubsequence(docs, n);
    }
  }

  lemma {:induction false} SubsequenceTransitive<T>(a: seq<T>, b: seq<T>, c: seq<T>)
    requires IsSubsequence(a, b) && IsSubsequence(b, c)
    ensures IsSubsequence(a, c)
    decreases |c|
  {
    if |a| > 0 && |c| > 0 {
      var c' := c[..|c| - 1];
      if b[|b| - 1] == c[|c| - 1] {
        if a[|a| - 1] == b[|b| - 1] {
          SubsequenceTransitive(a[..|a| - 1], b[..|b| - 1], c');
        } else {
          SubsequenceTransitive(a, b[..|b| - 1], c');
          SubsequenceDropLast(a, c);
        }
      } else {
        SubsequenceTransitive(a, b, c');
        SubsequenceDropLast(a, c);
      }
    }
  }
}
