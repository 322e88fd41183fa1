/** The layout concept both pipelines share: a sequence of labels is cut, in order,
    into rows of a fixed capacity (14 slots per HTML page, `labels_per_row` cells per
    PDF table row), and the last row is padded with blank slots so that every row has
    the same size. */
module Grid {
  import opened Seqs

  /** One slot of a page or table row: a label, or a blank placeholder that carries
      no data. */
  datatype Slot<T> = Filled(item: T) | Blank

  function Fills<T>(items: seq<T>): (r: seq<Slot<T>>)
    ensures |r| == |items| && forall i :: 0 <= i < |items| ==> r[i] == Filled(items[i])
  {
    seq(|items|, i requires 0 <= i < |items| => Filled(items[i]))
  }

  function Blanks<T>(n: nat): (r: seq<Slot<T>>)
    ensures |r| == n && forall i :: 0 <= i < n ==> r[i] == Blank
  {
    seq(n, _ => Blank)
  }

  /** The labels of the non-blank slots, in order. */
  function FilledItems<T>(slots: seq<Slot<T>>): seq<T>
    decreases |slots|
  {
    if slots == [] then []
    else match slots[0]
      case Filled(x) => [x] + FilledItems(slots[1..])
      case Blank => FilledItems(slots[1..])
  }

  lemma FillsAppend<T>(a: seq<T>, b: seq<T>)
    ensures Fills(a + b) == Fills(a) + Fills(b)
  {
  }

  /** One more item of a slice, as one more filled slot. */
  lemma FillsExtend<T>(items: seq<T>, s: nat, i: nat)
    requires s <= i < |items|
    ensures Fills(items[s..i + 1]) == Fills(items[s..i]) + [Filled(items[i])]
  {
    assert items[s..i + 1] == items[s..i] + [items[i]];
    FillsAppend(items[s..i], [items[i]]);
  }

  /** One more blank slot after a prefix. */
  lemma BlanksExtend<T>(prefix: seq<Slot<T>>, n: nat)
    ensures prefix + Blanks(n) + [Blank] == prefix + Blanks(n + 1)
  {
  }

  /** Reading the filled slots of labels followed by blanks gives the labels back. */
  lemma {:induction false} FilledItemsOfPadded<T>(items: seq<T>, n: nat)
    ensures FilledItems(Fills(items) + Blanks(n)) == items
    decreases |items| + n
  {
    var s := Fills(items) + Blanks<T>(n);
    if items != [] {
      assert s[1..] == Fills(items[1..]) + Blanks(n);
      FilledItemsOfPadded(items[1..], n);
      assert items == [items[0]] + items[1..];
    } else if n > 0 {
      assert s[1..] == Fills(items) + Blanks(n - 1);
      FilledItemsOfPadded(items, n - 1);
    }
  }

  // ---- arithmetic of rows -------------------------------------------------

  /** ceil(n / cap), written as the source writes it: `(n + cap - 1) // cap`. */
  function CeilDiv(n: nat, cap: nat): nat
    requires cap >= 1
  {
    (n + cap - 1) / cap
  }

  /** The number of blank slots that complete the last row of `n` labels. */
  function PadCount(n: nat, cap: nat): nat
    requires cap >= 1
  {
    if n % cap == 0 then 0 else cap - n % cap
  }

  lemma {:induction false} MulNonneg(a: int, c: int)
    requires a >= 0 && c >= 0
    ensures a * c >= 0
    decreases a
  {
    if a > 0 {
      MulNonneg(a - 1, c);
      assert a * c == (a - 1) * c + c;
    }
  }

  lemma MulMono(a: int, b: int, c: int)
    requires a <= b && c >= 0
    ensures a * c <= b * c
  {
    MulNonneg(b - a, c);
    assert (b - a) * c == b * c - a * c;
  }

  lemma MulSucc(r: int, c: int)
    ensures (r + 1) * c == r * c + c
  {
  }

  lemma DivModUnique(x: int, d: int, q: int, r: int)
    requires d > 0 && 0 <= r < d && x == q * d + r
    ensures x / d == q && x % d == r
  {
    var q0, r0 := x / d, x % d;
    assert x == q0 * d + r0;
    if q > q0 {
      MulMono(q0 + 1, q, d);
      MulSucc(q0, d);
    } else if q < q0 {
      MulMono(q + 1, q0, d);
      MulSucc(q, d);
    }
  }

  /** Row `r` exists exactly when it starts before the end of the labels. */
  lemma CeilDivBound(r: nat, n: nat, cap: nat)
    requires cap >= 1
    ensures r < CeilDiv(n, cap) <==> r * cap < n
  {
    var x := n + cap - 1;
    var q, rem := x / cap, x % cap;
    assert x == q * cap + rem;
    if r < q {
      MulMono(r + 1, q, cap);
      MulSucc(r, cap);
    } else {
      MulMono(q, r, cap);
    }
  }

  lemma CeilDivStep(n: nat, cap: nat)
    requires cap >= 1 && n > cap
    ensures CeilDiv(n, cap) == 1 + CeilDiv(n - cap, cap)
    ensures PadCount(n, cap) == PadCount(n - cap, cap)
  {
    var x := n - cap + cap - 1;
    DivModUnique(x + cap, cap, x / cap + 1, x % cap);
    var y := n - cap;
    DivModUnique(y + cap, cap, y / cap + 1, y % cap);
  }

  lemma CeilDivLast(n: nat, cap: nat)
    requires cap >= 1 && 0 < n <= cap
    ensures CeilDiv(n, cap) == 1
    ensures PadCount(n, cap) == cap - n
  {
    DivModUnique(n + cap - 1, cap, 1, n - 1);
    if n < cap {
      DivModUnique(n, cap, 0, n);
    } else {
      DivModUnique(n, cap, 1, 0);
    }
  }

  /** The labels that `m` full rows hold beyond `n` are exactly the padding. */
  lemma PadUnique(n: nat, cap: nat, m: nat, p: nat)
    requires cap >= 1 && p < cap && n + p == cap * m
    ensures p == PadCount(n, cap)
  {
    if p == 0 {
      DivModUnique(n, cap, m, 0);
    } else {
      DivModUnique(n, cap, m - 1, cap - p);
    }
  }

  // ---- chunking ----------------------------------------------------------

  /** `items` cut in order into rows of `cap` slots, the last row padded with blanks.
      No items, no rows: an empty input never yields a blank row. */
  function Chunks<T>(items: seq<T>, cap: nat): (g: seq<seq<Slot<T>>>)
    requires cap >= 1
    ensures |g| == CeilDiv(|items|, cap)
    ensures forall r :: 0 <= r < |g| ==> |g[r]| == cap
    decreases |items|
  {
    if |items| == 0 then []
    else if |items| <= cap then
      CeilDivLast(|items|, cap);
      [Fills(items) + Blanks(cap - |items|)]
    else
      CeilDivStep(|items|, cap);
      [Fills(items[..cap])] + Chunks(items[cap..], cap)
  }

  /** Read row by row, the grid is the labels followed by exactly the padding. */
  lemma {:induction false} ChunksFlatten<T>(items: seq<T>, cap: nat)
    requires cap >= 1
    ensures Flatten(Chunks(items, cap)) == Fills(items) + Blanks(PadCount(|items|, cap))
    decreases |items|
  {
    var g := Chunks(items, cap);
    if |items| == 0 {
    } else if |items| <= cap {
      CeilDivLast(|items|, cap);
      assert g[1..] == [];
      assert Flatten(g) == g[0] + [];
    } else {
      CeilDivStep(|items|, cap);
      ChunksFlatten(items[cap..], cap);
      assert g[1..] == Chunks(items[cap..], cap);
      FillsAppend(items[..cap], items[cap..]);
      assert items[..cap] + items[cap..] == items;
    }
  }

  /** Reading the non-blank cells row by row gives back every label once, in order. */
  lemma ChunksRoundTrip<T>(items: seq<T>, cap: nat)
    requires cap >= 1
    ensures FilledItems(Flatten(Chunks(items, cap))) == items
  {
    ChunksFlatten(items, cap);
    FilledItemsOfPadded(items, PadCount(|items|, cap));
  }

  function Min(a: int, b: int): int
  {
    if a < b then a else b
  }

  /** First index of row `r`: `start_idx = r * cap`. */
  function RowStart(r: nat, cap: nat): nat
  {
    r * cap
  }

  /** One past the last index of row `r`: `end_idx = min((r + 1) * cap, n)`. */
  function RowEnd(r: nat, cap: nat, n: nat): nat
  {
    Min((r + 1) * cap, n)
  }

  /** In a grid of `w`-wide rows, row `r` is the flattening's slice at `[r*w, r*w + w)`. */
  lemma {:induction false} FlattenRow<T>(g: seq<seq<T>>, w: nat, r: nat)
    requires forall i :: 0 <= i < |g| ==> |g[i]| == w
    requires r < |g|
    ensures r * w + w <= |Flatten(g)| && Flatten(g)[r * w..r * w + w] == g[r]
    decreases r
  {
    FlattenUniformLength(g, w);
    MulMono(r + 1, |g|, w);
    MulSucc(r, w);
    if r > 0 {
      FlattenRow(g[1..], w, r - 1);
      MulSucc(r - 1, w);
      var f := Flatten(g);
      assert f == g[0] + Flatten(g[1..]);
      assert f[r * w..r * w + w] == Flatten(g[1..])[(r - 1) * w..(r - 1) * w + w];
    }
  }

  /** A window of labels-then-blanks that starts inside the labels. */
  lemma WindowOfPadded<T>(items: seq<T>, p: nat, a: nat, w: nat)
    requires a < |items| && a + w <= |items| + p
    ensures (Fills(items) + Blanks(p))[a..a + w]
         == Fills(items[a..Min(a + w, |items|)]) + Blanks(a + w - Min(a + w, |items|))
  {
  }

  /** In any grid of `cap`-wide rows that reads as the labels then `pad` blanks, a row
      that starts inside the labels holds the slice `[r*cap, min((r+1)*cap, n))`
      followed by blanks up to `cap`. */
  lemma PaddedGridRow<T>(g: seq<seq<Slot<T>>>, items: seq<T>, pad: nat, cap: nat, r: nat)
    requires cap >= 1
    requires forall i :: 0 <= i < |g| ==> |g[i]| == cap
    requires Flatten(g) == Fills(items) + Blanks(pad)
    requires r < |g| && r * cap < |items|
    ensures RowStart(r, cap) < RowEnd(r, cap, |items|) <= RowStart(r, cap) + cap
    ensures g[r]
         == Fills(items[RowStart(r, cap)..RowEnd(r, cap, |items|)])
          + Blanks(cap - (RowEnd(r, cap, |items|) - RowStart(r, cap)))
  {
    MulSucc(r, cap);
    FlattenRow(g, cap, r);
    WindowOfPadded(items, pad, r * cap, cap);
  }

  /** Row `r` holds the slice `[r*cap, min((r+1)*cap, n))` of the labels, in order,
      followed by blanks up to `cap`; the slice is never empty and never longer than `cap`. */
  lemma ChunksRow<T>(items: seq<T>, cap: nat, r: nat)
    requires cap >= 1 && r < |Chunks(items, cap)|
    ensures RowStart(r, cap) < RowEnd(r, cap, |items|) <= RowStart(r, cap) + cap
    ensures Chunks(items, cap)[r]
         == Fills(items[RowStart(r, cap)..RowEnd(r, cap, |items|)])
          + Blanks(cap - (RowEnd(r, cap, |items|) - RowStart(r, cap)))
  {
    CeilDivBound(r, |items|, cap);
    ChunksFlatten(items, cap);
    PaddedGridRow(Chunks(items, cap), items, PadCount(|items|, cap), cap, r);
  }

  /** Consecutive rows cover adjacent, disjoint slices. */
  lemma RowsAdjacent(r: nat, cap: nat, n: nat)
    requires cap >= 1 && r + 1 < CeilDiv(n, cap)
    ensures RowEnd(r, cap, n) == RowStart(r + 1, cap)
  {
    CeilDivBound(r + 1, n, cap);
  }

  /** Every row but the last is full: it holds `cap` labels and no blank. */
  lemma FullRowsBeforeLast<T>(items: seq<T>, cap: nat, r: nat)
    requires cap >= 1 && r + 1 < |Chunks(items, cap)|
    ensures r * cap + cap <= |items|
    ensures Chunks(items, cap)[r] == Fills(items[r * cap..r * cap + cap])
  {
    var n := |items|;
    ChunksRow(items, cap, r);
    RowsAdjacent(r, cap, n);
    MulSucc(r, cap);
    assert Blanks<T>(0) == [];
  }

  /** The last row holds the remaining `n - cap*(rows-1)` labels followed by
      `PadCount(n, cap)` blanks: `cap - n % cap` of them when cap does not divide
      `n`, none when it does. */
  lemma LastRowPadded<T>(items: seq<T>, cap: nat)
    requires cap >= 1 && |Chunks(items, cap)| > 0
    ensures var g, n := Chunks(items, cap), |items|;
      && cap * (|g| - 1) < n
      && g[|g| - 1] == Fills(items[cap * (|g| - 1)..]) + Blanks(PadCount(n, cap))
      && (n - cap * (|g| - 1)) + PadCount(n, cap) == cap
  {
    var g, n := Chunks(items, cap), |items|;
    CeilDivBound(|g| - 1, n, cap);
    ChunksFlatten(items, cap);
    PaddedGridLastRow(g, items, PadCount(n, cap), cap);
  }

  /** In any grid of `cap`-wide rows that reads as the labels then `pad` blanks, the
      last row, when it starts inside the labels, holds the rest of them and then the
      `pad` blanks, `cap` slots in all. */
  lemma PaddedGridLastRow<T>(g: seq<seq<Slot<T>>>, items: seq<T>, pad: nat, cap: nat)
    requires cap >= 1
    requires forall i :: 0 <= i < |g| ==> |g[i]| == cap
    requires Flatten(g) == Fills(items) + Blanks(pad)
    requires |g| > 0 && (|g| - 1) * cap < |items|
    ensures cap * (|g| - 1) < |items|
    ensures g[|g| - 1] == Fills(items[cap * (|g| - 1)..]) + Blanks(pad)
    ensures (|items| - cap * (|g| - 1)) + pad == cap
  {
    var n, last := |items|, |g| - 1;
    var s := last * cap;
    assert cap * last == s;
    PaddedGridRow(g, items, pad, cap, last);
    FlattenUniformLength(g, cap);
    assert cap * |g| == n + pad;
    MulSucc(last, cap);
    assert RowEnd(last, cap, n) == n;
    assert items[s..n] == items[s..];
  }

  /** A grid of `cap`-wide rows that reads as the labels followed by fewer than `cap`
      blanks is the chunking of those labels: there is no other way to lay them out. */
  lemma ChunksCharacterized<T>(g: seq<seq<Slot<T>>>, items: seq<T>, cap: nat, p: nat)
    requires cap >= 1 && p < cap
    requires forall r :: 0 <= r < |g| ==> |g[r]| == cap
    requires Flatten(g) == Fills(items) + Blanks(p)
    ensures g == Chunks(items, cap)
  {
    FlattenUniformLength(g, cap);
    PadUnique(|items|, cap, |g|, p);
    ChunksFlatten(items, cap);
    FlattenUniformInjective(g, Chunks(items, cap), cap);
  }
}
