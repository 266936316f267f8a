/** The module-level answer cache `_query_cache` of rag/generator.py: a
    dictionary that remembers insertion order, capped at 100 entries by
    dropping the oldest key whenever a store takes it past the cap. */
module Cache {
  import opened Text
  import opened Context

  datatype Option<T> = None | Some(value: T)

  const MaxEntries: nat := 100

  /** The dictionary as a value: its keys in insertion order, and the
      answers. */
  datatype CacheState = CacheState(order: seq<CacheKey>, answers: map<CacheKey, String>)

  const EmptyCache: CacheState := CacheState([], map[])

  /** No key occurs twice. */
  predicate Distinct(keys: seq<CacheKey>)
    decreases |keys|
  {
    |keys| == 0 || (Distinct(keys[..|keys| - 1]) && keys[|keys| - 1] !in keys[..|keys| - 1])
  }

  /** Two positions of a distinct sequence hold different keys. */
  lemma {:induction false} DistinctPairs(keys: seq<CacheKey>, i: nat, j: nat)
    requires Distinct(keys) && i < j < |keys|
    ensures keys[i] != keys[j]
    decreases |keys|
  {
    var init := keys[..|keys| - 1];
    if j < |keys| - 1 {
      DistinctPairs(init, i, j);
    } else {
      assert keys[i] == init[i];
    }
  }

  /** Dropping the first key keeps the rest distinct. */
  lemma {:induction false} DistinctDropFirst(keys: seq<CacheKey>)
    requires |keys| > 0 && Distinct(keys)
    ensures Distinct(keys[1..])
    decreases |keys|
  {
    if |keys| > 1 {
      var init := keys[..|keys| - 1];
      DistinctDropFirst(init);
      assert keys[1..][..|keys[1..]| - 1] == init[1..];
      assert keys[1..][|keys[1..]| - 1] == keys[|keys| - 1];
      assert forall k :: k in init[1..] ==> k in init;
    }
  }

  /** The order lists each stored key once, and nothing else. */
  ghost predicate ValidState(s: CacheState) {
    Distinct(s.order) &&
    (forall k :: k in s.answers <==> k in s.order)
  }

  /** A store: a new key goes to the end of the order, a known key keeps its
      place and gets the new answer; past the cap the first key in the order
      is dropped. */
  function Put(s: CacheState, key: CacheKey, answer: String): CacheState
    requires ValidState(s)
  {
    var order := if key in s.answers then s.order else s.order + [key];
    var answers := s.answers[key := answer];
    if |answers| > MaxEntries && |order| > 0 then CacheState(order[1..], answers - {order[0]})
    else CacheState(order, answers)
  }

  /** As many keys as the order lists. */
  lemma {:induction false} KeyCount(s: CacheState)
    requires ValidState(s)
    ensures |s.answers| == |s.order|
    decreases |s.order|
  {
    if |s.order| > 0 {
      var last := s.order[|s.order| - 1];
      var rest := CacheState(s.order[..|s.order| - 1], s.answers - {last});
      KeyCount(rest);
      assert s.answers.Keys == rest.answers.Keys + {last};
    }
  }

  /** Storing under a known key replaces its answer and leaves the order. */
  lemma PutKnown(s: CacheState, key: CacheKey, answer: String)
    requires ValidState(s) && |s.order| <= MaxEntries && key in s.answers
    ensures Put(s, key, answer) == CacheState(s.order, s.answers[key := answer])
  {
    KeyCount(s);
    assert s.answers[key := answer].Keys == s.answers.Keys;
  }

  /** Storing under a new key appends it to the order, dropping the first
      key when the cache was full. */
  lemma PutNew(s: CacheState, key: CacheKey, answer: String)
    requires ValidState(s) && |s.order| <= MaxEntries && key !in s.answers
    ensures |s.order| < MaxEntries ==> Put(s, key, answer) == CacheState(s.order + [key], s.answers[key := answer])
    ensures |s.order| == MaxEntries ==>
      Put(s, key, answer) == CacheState(s.order[1..] + [key], s.answers[key := answer] - {s.order[0]})
  {
    KeyCount(s);
    assert |s.answers[key := answer]| == |s.answers| + 1;
    if |s.order| == MaxEntries {
      assert (s.order + [key])[1..] == s.order[1..] + [key];
    }
  }

  /** A store keeps the order and the keys in step. */
  lemma PutValid(s: CacheState, key: CacheKey, answer: String)
    requires ValidState(s) && |s.order| <= MaxEntries
    ensures ValidState(Put(s, key, answer))
    ensures |Put(s, key, answer).order| <= MaxEntries
  {
    var r := Put(s, key, answer);
    if key in s.answers {
      PutKnown(s, key, answer);
    } else {
      PutNew(s, key, answer);
      if |s.order| == MaxEntries {
        DistinctDropFirst(s.order);
        assert (s.order[1..] + [key])[..|s.order| - 1] == s.order[1..];
        forall k
          ensures k in r.answers <==> k in r.order
        {
          if k in s.order[1..] {
            var i :| 0 <= i < |s.order[1..]| && s.order[1..][i] == k;
            DistinctPairs(s.order, 0, i + 1);
          }
          if k in s.order && k != s.order[0] {
            var i :| 0 <= i < |s.order| && s.order[i] == k;
            assert s.order[1..][i - 1] == k;
          }
        }
      }
    }
  }

  /** What a store does: the key now maps to the answer, every other key
      keeps its answer, the size never goes past the cap, and the key
      dropped, if any, is the oldest one. */
  lemma PutSpec(s: CacheState, key: CacheKey, answer: String)
    requires ValidState(s) && |s.order| <= MaxEntries
    ensures ValidState(Put(s, key, answer))
    ensures |Put(s, key, answer).answers| <= MaxEntries
    ensures key in Put(s, key, answer).answers && Put(s, key, answer).answers[key] == answer
    ensures forall k :: k in Put(s, key, answer).answers && k != key ==>
      k in s.answers && Put(s, key, answer).answers[k] == s.answers[k]
    ensures key in s.answers ==> Put(s, key, answer).order == s.order
    ensures key !in s.answers && |s.order| < MaxEntries ==> Put(s, key, answer).order == s.order + [key]
    ensures key !in s.answers && |s.order| == MaxEntries ==>
      Put(s, key, answer).order == s.order[1..] + [key] && s.order[0] !in Put(s, key, answer).answers
  {
    PutValid(s, key, answer);
    KeyCount(Put(s, key, answer));
    if key in s.answers {
      PutKnown(s, key, answer);
    } else {
      PutNew(s, key, answer);
    }
  }

  /** Storing the keys `ks` one after another, each with answer `answer`. */
  function PutAll(s: CacheState, ks: seq<CacheKey>, answer: String): (r: CacheState)
    requires ValidState(s) && |s.order| <= MaxEntries
    ensures ValidState(r) && |r.order| <= MaxEntries
    decreases |ks|
  {
    if |ks| == 0 then s
    else
      var prev := PutAll(s, ks[..|ks| - 1], answer);
      PutValid(prev, ks[|ks| - 1], answer);
      Put(prev, ks[|ks| - 1], answer)
  }

  /** First in, first out: after storing distinct keys into an empty cache,
      the cache holds exactly the newest 100 of them, oldest first. */
  lemma {:induction false} KeepsNewest(ks: seq<CacheKey>, answer: String)
    requires Distinct(ks)
    ensures PutAll(EmptyCache, ks, answer).order == ks[|ks| - Min(|ks|, MaxEntries)..]
    decreases |ks|
  {
    if |ks| > 0 {
      var init := ks[..|ks| - 1];
      var last := ks[|ks| - 1];
      KeepsNewest(init, answer);
      var prev := PutAll(EmptyCache, init, answer);
      var from := |init| - Min(|init|, MaxEntries);
      assert prev.order == init[from..];
      assert last !in prev.order by {
        forall i | 0 <= i < |prev.order|
          ensures prev.order[i] != last
        {
          assert prev.order[i] == ks[from + i];
        }
      }
      assert PutAll(EmptyCache, ks, answer) == Put(prev, last, answer);
      NewestStep(prev, ks, init, last, answer);
    }
  }

  /** Storing the last key, new to a cache that holds the newest-100 window
      of the others, leaves the newest-100 window of all the keys. */
  lemma NewestStep(prev: CacheState, ks: seq<CacheKey>, init: seq<CacheKey>, last: CacheKey, answer: String)
    requires |ks| > 0 && init == ks[..|ks| - 1] && last == ks[|ks| - 1]
    requires ValidState(prev) && |prev.order| <= MaxEntries
    requires prev.order == init[|init| - Min(|init|, MaxEntries)..]
    requires last !in prev.order
    ensures Put(prev, last, answer).order == ks[|ks| - Min(|ks|, MaxEntries)..]
  {
    PutNew(prev, last, answer);
    SlideWindow(ks);
  }

  /** Appending the last key to the newest-100 window of the others, and
      dropping the window's first key when it was full, gives the newest-100
      window of all the keys. */
  lemma SlideWindow(ks: seq<CacheKey>)
    requires |ks| > 0
    ensures var init := ks[..|ks| - 1]; var w := init[|init| - Min(|init|, MaxEntries)..];
      && (|init| >= MaxEntries ==> w[1..] + [ks[|ks| - 1]] == ks[|ks| - Min(|ks|, MaxEntries)..])
      && (|init| < MaxEntries ==> w + [ks[|ks| - 1]] == ks[|ks| - Min(|ks|, MaxEntries)..])
  {
    var init := ks[..|ks| - 1];
    if |init| >= MaxEntries {
      assert init[|init| - MaxEntries..][1..] == init[|init| - MaxEntries + 1..];
      assert ks[|ks| - MaxEntries..] == init[|init| - MaxEntries + 1..] + [ks[|ks| - 1]];
    } else {
      assert init[0..] == init;
      assert ks[0..] == init + [ks[|ks| - 1]];
    }
  }

  function Min(a: int, b: int): int {
    if a < b then a else b
  }

  /** A 101st distinct key pushes out the first one stored. */
  lemma HundredAndFirstEvictsFirst(ks: seq<CacheKey>, answer: String)
    requires Distinct(ks) && |ks| == MaxEntries + 1
    ensures ks[0] !in PutAll(EmptyCache, ks, answer).answers
    ensures forall i :: 1 <= i < |ks| ==> ks[i] in PutAll(EmptyCache, ks, answer).answers
  {
    KeepsNewest(ks, answer);
    var r := PutAll(EmptyCache, ks, answer);
    assert r.order == ks[1..];
    forall i | 1 <= i < |ks|
      ensures ks[i] in r.answers
    {
      assert r.order[i - 1] == ks[i];
    }
    forall i | 0 <= i < |r.order|
      ensures r.order[i] != ks[0]
    {
      DistinctPairs(ks, 0, i + 1);
    }
  }

  /** The cache object that `generate_answer` reads and updates. */
  class QueryCache {
    var order: seq<CacheKey>
    var answers: map<CacheKey, String>

    function State(): CacheState
      reads this
    {
      CacheState(order, answers)
    }

    ghost predicate Valid()
      reads this
    {
      ValidState(State()) && |order| <= MaxEntries
    }

    constructor ()
      ensures State() == EmptyCache
      ensures Valid()
    {
      order := [];
      answers := map[];
    }

    /** `key in _query_cache` and the stored answer. */
    method Lookup(key: CacheKey) returns (hit: Option<String>)
      ensures key in answers ==> hit == Some(answers[key])
      ensures key !in answers ==> hit == None
    {
      if key in answers {
        hit := Some(answers[key]);
      } else {
        hit := None;
      }
    }

    /** `_query_cache[key] = answer`, then drop the first key when the
        dictionary has grown past 100 entries. */
    method Store(key: CacheKey, answer: String)
      requires Valid()
      modifies this
      ensures State() == Put(old(State()), key, answer)
      ensures Valid()
    {
      PutSpec(State(), key, answer);
      if key !in answers {
        order := order + [key];
      }
      answers := answers[key := answer];
      if |answers| > MaxEntries && |order| > 0 {
        var oldest := order[0];
        answers := answers - {oldest};
        order := order[1..];
      }
    }
  }
}
