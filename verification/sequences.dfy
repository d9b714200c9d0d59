/**
 * Order-preserving filtering of sequences. Every collection operation of the
 * application (the owner view, item deletion, the "your item" marks) is an
 * `Array.prototype.filter` over a stored list, so the facts about it are
 * proved once here.
 */
module Sequences {

  /** The elements of `s` satisfying `p`, in their original order. */
  function Filter<T(==,!new)>(s: seq<T>, p: T -> bool): (r: seq<T>)
    ensures |r| <= |s|
    ensures forall x :: x in r <==> x in s && p(x)
    decreases |s|
  {
    if |s| == 0 then []
    else
      var init := s[..|s| - 1];
      assert s == init + [s[|s| - 1]];
      var rest := Filter(init, p);
      if p(s[|s| - 1]) then rest + [s[|s| - 1]] else rest
  }

  /** The positions of `s` whose element satisfies `p`, in increasing order. */
  function KeptPositions<T>(s: seq<T>, p: T -> bool): seq<nat>
    decreases |s|
  {
    if |s| == 0 then []
    else
      var rest := KeptPositions(s[..|s| - 1], p);
      if p(s[|s| - 1]) then rest + [|s| - 1] else rest
  }

  /** `idx` picks, in strictly increasing order, positions of `b` that spell out `a`. */
  ghost predicate Embedding<T>(a: seq<T>, b: seq<T>, idx: seq<nat>)
  {
    && |idx| == |a|
    && (forall k :: 0 <= k < |idx| ==> idx[k] < |b| && b[idx[k]] == a[k])
    && (forall k, l :: 0 <= k < l < |idx| ==> idx[k] < idx[l])
  }

  /** Filtering one more element at the end. */
  lemma FilterSnoc<T(!new)>(a: seq<T>, x: T, p: T -> bool)
    ensures Filter(a + [x], p) == if p(x) then Filter(a, p) + [x] else Filter(a, p)
  {
    assert (a + [x])[..|a|] == a;
  }

  /** An embedding survives appending the same element to both sides. */
  lemma EmbeddingSnoc<T>(a: seq<T>, b: seq<T>, idx: seq<nat>, x: T)
    requires Embedding(a, b, idx)
    ensures Embedding(a + [x], b + [x], idx + [|b|])
  {
    var a2, b2, idx2 := a + [x], b + [x], idx + [|b|];
    forall k | 0 <= k < |idx2|
      ensures idx2[k] < |b2| && b2[idx2[k]] == a2[k]
    {
      if k < |idx| {
        assert idx2[k] == idx[k] && b2[idx[k]] == b[idx[k]];
      }
    }
  }

  /** An embedding of `a` into `b` also embeds `a` into `b` extended at the end. */
  lemma EmbeddingExtend<T>(a: seq<T>, b: seq<T>, idx: seq<nat>, x: T)
    requires Embedding(a, b, idx)
    ensures Embedding(a, b + [x], idx)
  {
    forall k | 0 <= k < |idx|
      ensures idx[k] < |b + [x]| && (b + [x])[idx[k]] == a[k]
    {
    }
  }

  /**
   * Filter is exact and keeps order: its result is the subsequence of `s`
   * at exactly the positions whose element satisfies `p`.
   */
  lemma {:induction false} FilterKeepsOrder<T(!new)>(s: seq<T>, p: T -> bool)
    ensures Embedding(Filter(s, p), s, KeptPositions(s, p))
    ensures forall i :: 0 <= i < |s| ==> (i in KeptPositions(s, p) <==> p(s[i]))
    decreases |s|
  {
    if |s| > 0 {
      var n := |s| - 1;
      var init, x := s[..n], s[n];
      assert s == init + [x];
      FilterKeepsOrder(init, p);
      var a', idx' := Filter(init, p), KeptPositions(init, p);
      assert forall k :: 0 <= k < |idx'| ==> idx'[k] < n;
      if p(x) {
        EmbeddingSnoc(a', init, idx', x);
      } else {
        EmbeddingExtend(a', init, idx', x);
      }
      forall i | 0 <= i < |s|
        ensures i in KeptPositions(s, p) <==> p(s[i])
      {
        if i < n {
          assert s[i] == init[i];
        } else {
          assert n !in idx';
        }
      }
    }
  }

  /** A filter that rejects nothing in `s` returns `s` itself. */
  lemma {:induction false} FilterKeepsAll<T(!new)>(s: seq<T>, p: T -> bool)
    requires forall i :: 0 <= i < |s| ==> p(s[i])
    ensures Filter(s, p) == s
    decreases |s|
  {
    if |s| > 0 {
      var init := s[..|s| - 1];
      FilterKeepsAll(init, p);
      assert s == init + [s[|s| - 1]];
    }
  }

  /** Two filters applied one after the other commute. */
  lemma {:induction false} FilterCommutes<T(!new)>(s: seq<T>, p: T -> bool, q: T -> bool)
    ensures Filter(Filter(s, p), q) == Filter(Filter(s, q), p)
    decreases |s|
  {
    if |s| > 0 {
      var init := s[..|s| - 1];
      var x := s[|s| - 1];
      FilterCommutes(init, p, q);
      FilterSnoc(Filter(init, p), x, q);
      FilterSnoc(Filter(init, q), x, p);
    }
  }

}
