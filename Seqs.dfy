/** Sequence helpers shared by both pipelines: the order-preserving row filter
    (pandas boolean masks and `dropna`) and flattening of a grid into reading order. */
module Seqs {

  /** The elements of `s` that satisfy `keep`, in their original order. */
  function Filter<T>(s: seq<T>, keep: T -> bool): (r: seq<T>)
    ensures |r| <= |s|
    decreases |s|
  {
    if s == [] then []
    else Filter(s[..|s| - 1], keep) + (if keep(s[|s| - 1]) then [s[|s| - 1]] else [])
  }

  /** The positions of `s` whose element satisfies `keep`, in increasing order. */
  function KeptIndices<T>(s: seq<T>, keep: T -> bool): seq<nat>
    decreases |s|
  {
    if s == [] then []
    else KeptIndices(s[..|s| - 1], keep) + (if keep(s[|s| - 1]) then [|s| - 1] else [])
  }

  ghost predicate StrictlyIncreasing(idx: seq<nat>)
  {
    forall i, j :: 0 <= i < j < |idx| ==> idx[i] < idx[j]
  }

  /** The kept positions are in range, increase, and are exactly the positions
      whose element satisfies `keep`. */
  lemma {:induction false} KeptIndicesSpec<T>(s: seq<T>, keep: T -> bool)
    ensures var idx := KeptIndices(s, keep);
      && (forall k :: 0 <= k < |idx| ==> idx[k] < |s|)
      && StrictlyIncreasing(idx)
      && (forall j :: 0 <= j < |s| ==> (keep(s[j]) <==> j in idx))
    decreases |s|
  {
    if s != [] {
      var init := s[..|s| - 1];
      KeptIndicesSpec(init, keep);
      var idx0, idx := KeptIndices(init, keep), KeptIndices(s, keep);
      assert idx == idx0 + (if keep(s[|s| - 1]) then [|s| - 1] else []);
      forall j | 0 <= j < |s| - 1
        ensures keep(s[j]) <==> j in idx
      {
        assert s[j] == init[j];
      }
    }
  }

  /** The filter's result is `s` read at the kept positions. */
  lemma {:induction false} FilterAtKept<T>(s: seq<T>, keep: T -> bool)
    ensures var r, idx := Filter(s, keep), KeptIndices(s, keep);
      && |r| == |idx|
      && (forall k :: 0 <= k < |idx| ==> idx[k] < |s| && r[k] == s[idx[k]])
    decreases |s|
  {
    if s != [] {
      var init, last := s[..|s| - 1], s[|s| - 1];
      FilterAtKept(init, keep);
      var r0, idx0 := Filter(init, keep), KeptIndices(init, keep);
      var r, idx := Filter(s, keep), KeptIndices(s, keep);
      if keep(last) {
        assert r == r0 + [last] && idx == idx0 + [|s| - 1];
      } else {
        assert r == r0 + [] == r0 && idx == idx0 + [] == idx0;
      }
      forall k | 0 <= k < |idx0|
        ensures idx[k] < |s| && r[k] == s[idx[k]]
      {
        assert r[k] == r0[k] && idx[k] == idx0[k];
        assert init[idx0[k]] == s[idx0[k]];
      }
    }
  }

  /** A full description of a stable filter: the result is `s` read at the kept
      positions, the kept positions increase, and a position is kept exactly when
      its element satisfies `keep`. So nothing is reordered, duplicated or lost. */
  lemma FilterSpec<T>(s: seq<T>, keep: T -> bool)
    ensures var r, idx := Filter(s, keep), KeptIndices(s, keep);
      && |r| == |idx|
      && StrictlyIncreasing(idx)
      && (forall k :: 0 <= k < |idx| ==> idx[k] < |s| && r[k] == s[idx[k]])
      && (forall j :: 0 <= j < |s| ==> (keep(s[j]) <==> j in idx))
  {
    KeptIndicesSpec(s, keep);
    FilterAtKept(s, keep);
  }

  /** Filtering an already filtered sequence removes nothing more. */
  lemma {:induction false} FilterIdempotent<T>(s: seq<T>, keep: T -> bool)
    ensures Filter(Filter(s, keep), keep) == Filter(s, keep)
    decreases |s|
  {
    if s != [] {
      var init, last := s[..|s| - 1], s[|s| - 1];
      FilterIdempotent(init, keep);
      if keep(last) {
        var r0 := Filter(init, keep);
        var t := r0 + [last];
        assert Filter(s, keep) == t;
        assert t[..|t| - 1] == r0 && t[|t| - 1] == last;
        assert Filter(t, keep) == Filter(r0, keep) + [last];
        assert Filter(r0, keep) == r0;
      } else {
        var r0 := Filter(init, keep);
        assert r0 + [] == r0;
        assert Filter(s, keep) == r0;
      }
    }
  }

  /** Filtering with a condition every element already satisfies is the identity. */
  lemma {:induction false} FilterAllKept<T>(s: seq<T>, keep: T -> bool)
    requires forall i :: 0 <= i < |s| ==> keep(s[i])
    ensures Filter(s, keep) == s
    decreases |s|
  {
    if s != [] {
      FilterAllKept(s[..|s| - 1], keep);
    }
  }

  /** The cells of a grid in reading order: row by row, left to right. */
  function Flatten<T>(g: seq<seq<T>>): (r: seq<T>)
    decreases |g|
  {
    if g == [] then [] else g[0] + Flatten(g[1..])
  }

  lemma {:induction false} FlattenAppend<T>(g: seq<seq<T>>, row: seq<T>)
    ensures Flatten(g + [row]) == Flatten(g) + row
    decreases |g|
  {
    if g == [] {
      assert [row][1..] == [];
    } else {
      assert (g + [row])[1..] == g[1..] + [row];
      FlattenAppend(g[1..], row);
    }
  }

  /** Flattening distributes over concatenation of grids. */
  lemma {:induction false} FlattenConcat<T>(g1: seq<seq<T>>, g2: seq<seq<T>>)
    ensures Flatten(g1 + g2) == Flatten(g1) + Flatten(g2)
    decreases |g1|
  {
    if g1 == [] {
      assert g1 + g2 == g2;
    } else {
      assert (g1 + g2)[1..] == g1[1..] + g2;
      FlattenConcat(g1[1..], g2);
    }
  }

  /** A grid of three rows, flattened. */
  lemma FlattenThree<T>(a: seq<T>, b: seq<T>, c: seq<T>)
    ensures Flatten([a, b, c]) == a + b + c
  {
    assert Flatten([c][1..]) == [] by { assert [c][1..] == []; }
    assert Flatten([c]) == c;
    assert Flatten([b, c]) == b + c by { assert [b, c][1..] == [c]; }
    assert Flatten([a, b, c]) == a + (b + c) by { assert [a, b, c][1..] == [b, c]; }
  }

  /** A grid of six rows, flattened. */
  lemma FlattenSix<T>(a: seq<T>, b: seq<T>, c: seq<T>, d: seq<T>, e: seq<T>, f: seq<T>)
    ensures Flatten([a, b, c, d, e, f]) == a + b + c + d + e + f
  {
    assert [a, b, c, d, e, f] == [a, b, c] + [d, e, f];
    FlattenConcat([a, b, c], [d, e, f]);
    FlattenThree(a, b, c);
    FlattenThree(d, e, f);
  }

  /** A grid of seven rows, flattened. */
  lemma FlattenSeven<T>(a: seq<T>, b: seq<T>, c: seq<T>, d: seq<T>, e: seq<T>, f: seq<T>, g: seq<T>)
    ensures Flatten([a, b, c, d, e, f, g]) == a + b + c + d + e + f + g
  {
    FlattenSix(b, c, d, e, f, g);
    assert [a, b, c, d, e, f, g][1..] == [b, c, d, e, f, g];
  }

  /** Exchanging two adjacent blocks keeps the elements and their counts. */
  lemma SwapBlocks<T>(a: seq<T>, b: seq<T>, c: seq<T>, d: seq<T>)
    ensures multiset(a + c + b + d) == multiset(a + b + c + d)
  {
  }

  /** Appending a row of `width` cells keeps every row `width` wide. */
  lemma UniformAppend<T>(g: seq<seq<T>>, row: seq<T>, width: nat)
    requires forall i :: 0 <= i < |g| ==> |g[i]| == width
    requires |row| == width
    ensures forall i :: 0 <= i < |g + [row]| ==> |(g + [row])[i]| == width
  {
    forall i | 0 <= i < |g + [row]|
      ensures |(g + [row])[i]| == width
    {
      if i < |g| {
        assert (g + [row])[i] == g[i];
      }
    }
  }

  /** When every row has `width` cells the flattened grid has `width * |g|` cells in all. */
  lemma {:induction false} FlattenUniformLength<T>(g: seq<seq<T>>, width: nat)
    requires forall i :: 0 <= i < |g| ==> |g[i]| == width
    ensures |Flatten(g)| == width * |g|
    decreases |g|
  {
    if g != [] {
      FlattenUniformLength(g[1..], width);
    }
  }

  /** Equal concatenations with equal-length heads have equal heads and tails. */
  lemma ConcatCancel<T>(a: seq<T>, b: seq<T>, c: seq<T>, d: seq<T>)
    requires |a| == |c| && a + b == c + d
    ensures a == c && b == d
  {
    assert a == (a + b)[..|a|];
    assert c == (c + d)[..|c|];
    assert b == (a + b)[|a|..];
    assert d == (c + d)[|c|..];
  }

  /** Rows of a fixed width are determined by their concatenation: a grid of
      width-`width` rows can be cut back out of its flattening in one way only. */
  lemma {:induction false} FlattenUniformInjective<T>(g1: seq<seq<T>>, g2: seq<seq<T>>, width: nat)
    requires width >= 1
    requires forall i :: 0 <= i < |g1| ==> |g1[i]| == width
    requires forall i :: 0 <= i < |g2| ==> |g2[i]| == width
    requires Flatten(g1) == Flatten(g2)
    ensures g1 == g2
    decreases |g1|
  {
    FlattenUniformLength(g1, width);
    FlattenUniformLength(g2, width);
    assert |g1| == |g2|;
    if g1 != [] {
      ConcatCancel(g1[0], Flatten(g1[1..]), g2[0], Flatten(g2[1..]));
      FlattenUniformInjective(g1[1..], g2[1..], width);
      assert g1 == [g1[0]] + g1[1..];
      assert g2 == [g2[0]] + g2[1..];
    }
  }
}
