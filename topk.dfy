/**
 * The `TopK` op: for each row of the last dimension of `x`, the `k`
 * largest entries, largest first, and their positions in the row.
 * Entries are integers here.
 */
module TopKOp {
  import opened Tensors

  /** The op's setting: `_k`, how many entries of each row it keeps. */
  datatype TopK = TopK(k: nat)

  /** The size of the last dimension: `x.dim(-1)`. */
  function Depth(shape: Shape): nat
    requires |shape| > 0
  {
    shape[|shape| - 1]
  }

  /** The number of rows: `x.size() / depth`. */
  function Batch(shape: Shape): nat
    requires |shape| > 0 && Depth(shape) > 0
  {
    Product(shape) / Depth(shape)
  }

  /** The row count divides out exactly: it is the product of the dimensions before the last. */
  lemma {:induction false} BatchRows(shape: Shape)
    requires |shape| > 0 && Depth(shape) > 0
    ensures Batch(shape) == Product(shape[..|shape| - 1])
    ensures Batch(shape) * Depth(shape) == Product(shape)
  {
    var n := |shape| - 1;
    ProductSplit(shape, n);
    assert shape[n..] == [shape[n]];
    assert Product(shape[n..]) == Product(shape[n..][..0]) * shape[n];
    assert shape[n..][..0] == [];
    ExactQuotient(Product(shape[..n]), shape[n]);
  }

  lemma {:induction false} ExactQuotient(a: nat, d: nat)
    requires d > 0
    ensures a * d / d == a
  {
    var q := a * d / d;
    assert a * d == q * d + a * d % d;
    if q < a {
      RowBefore(q, a, d);
      assert false;
    } else if q > a {
      RowBefore(a, q, d);
      assert false;
    }
  }

  /** The rows before row `i` end where it starts. */
  lemma {:induction false} RowBefore(i': nat, i: nat, w: nat)
    requires i' < i
    ensures i' * w + w <= i * w
    decreases i
  {
    if i > i' + 1 {
      RowBefore(i', i - 1, w);
    }
  }

  /** `0, 1, ..., n - 1`, as `std::iota` writes them. */
  function Iota(n: nat): seq<int> {
    seq(n, c => c)
  }

  /** `seg` holds each position `0 .. depth - 1` of a row exactly once. */
  ghost predicate Arrangement(seg: seq<int>, depth: nat)
  {
    && |seg| == depth && multiset(seg) == multiset(Iota(depth))
    && (forall a | 0 <= a < depth :: 0 <= seg[a] < depth)
    && (forall a, b | 0 <= a < b < depth :: seg[a] != seg[b])
  }

  /**
   * What `std::partial_sort` with the comparator `row[i1] > row[i2]`
   * promises of the positions `seg`: they are rearranged, their first `k`
   * are in non-increasing order of their entries, and no position after
   * those has a larger entry than any of them.
   */
  ghost predicate PartiallySorted(row: seq<int>, seg: seq<int>, k: nat)
  {
    && Arrangement(seg, |row|) && k <= |seg|
    && (forall a, b | 0 <= a < b < k :: row[seg[b]] <= row[seg[a]])
    && (forall a, b | 0 <= a < k <= b < |seg| :: row[seg[b]] <= row[seg[a]])
  }

  /**
   * The result of one row: `k` distinct positions of `row`, `val` holding
   * their entries in non-increasing order, and every position left out
   * holding an entry no larger than any kept one.
   */
  ghost predicate TopRow(row: seq<int>, k: nat, ind: seq<int>, val: seq<int>)
  {
    && |ind| == k && |val| == k
    && (forall j | 0 <= j < k :: 0 <= ind[j] < |row| && val[j] == row[ind[j]])
    && (forall j, j' | 0 <= j < j' < k :: ind[j] != ind[j'])
    && (forall j, j' | 0 <= j < j' < k :: val[j'] <= val[j])
    && (forall c, j | 0 <= c < |row| && c !in ind && 0 <= j < k :: row[c] <= val[j])
  }

  /** The row of `depth` entries at `base` in `xs` has its result in `ind` and `val` at `out`. */
  ghost predicate RowAt(xs: seq<int>, depth: nat, k: nat, ind: seq<int>, val: seq<int>, base: nat, out: nat)
  {
    && base + depth <= |xs| && out + k <= |ind| && out + k <= |val|
    && TopRow(xs[base..base + depth], k, ind[out..out + k], val[out..out + k])
  }

  /** Row `i` of `xs`, `depth` entries from `i * depth`, has its result in `ind` and `val` from `i * k`. */
  ghost predicate RowDone(xs: seq<int>, depth: nat, k: nat, ind: seq<int>, val: seq<int>, i: nat)
  {
    RowAt(xs, depth, k, ind, val, i * depth, i * k)
  }

  /**
   * `compute(x, values, indices)`: every row of `x` has its `k` largest
   * entries in `values` and their positions in `indices`, row `i` at
   * `i * k`. The rows are taken one after the other.
   */
  method Compute(op: TopK, x: StorageView, values: array<int>, indices: array<int>)
    requires x.Valid() && |x.shape| > 0 && 0 < Depth(x.shape) && op.k <= Depth(x.shape)
    requires values.Length == Batch(x.shape) * op.k && indices.Length == Batch(x.shape) * op.k
    requires values != indices && values != x.buf && indices != x.buf
    modifies values, indices
    ensures forall i | 0 <= i < Batch(x.shape) :: RowDone(x.Elements(), Depth(x.shape), op.k, indices[..], values[..], i)
  {
    var depth := x.shape[|x.shape| - 1];
    var batch := Product(x.shape) / depth;
    BatchRows(x.shape);
    var full := new int[batch * depth];
    ghost var xs := x.Elements();
    var i := 0;
    while i < batch
      invariant i <= batch
      invariant forall i' | 0 <= i' < i :: RowDone(xs, depth, op.k, indices[..], values[..], i')
    {
      ghost var ind0, val0 := indices[..], values[..];
      FlatEnd(i, depth, batch, depth);
      FlatEnd(i, op.k, batch, op.k);
      OneRow(x, full, values, indices, depth, op.k, i * depth, i * op.k, xs);
      RowsStep(xs, depth, op.k, ind0, val0, indices[..], values[..], i);
      i := i + 1;
    }
  }

  /**
   * The body of the loop of `compute` for the row whose `depth` entries
   * start at `base` in `x` and whose `k` results go at `out` in the
   * outputs; the row's positions are ranked in `full` at `base`.
   */
  method OneRow(x: StorageView, full: array<int>, values: array<int>, indices: array<int>,
                depth: nat, k: nat, base: nat, out: nat, ghost xs: seq<int>)
    requires x.Valid() && xs == x.Elements() && base + depth <= |xs| && k <= depth
    requires base + depth <= full.Length && out + k <= values.Length && out + k <= indices.Length
    requires values != indices && values != x.buf && indices != x.buf
    requires full != values && full != indices && full != x.buf
    modifies full, values, indices
    ensures RowAt(xs, depth, k, indices[..], values[..], base, out)
    ensures indices[..out] == old(indices[..out]) && indices[out + k..] == old(indices[out + k..])
    ensures values[..out] == old(values[..out]) && values[out + k..] == old(values[out + k..])
  {
    var row := x.buf[x.start + base..x.start + base + depth];
    SliceOfSlice(x.buf[..], x.start, x.start + Product(x.shape), base, base + depth);
    assert row == xs[base..base + depth];
    RankRow(row, full, base, k);
    ghost var seg := full[base..base + depth];
    WriteRow(row, full, base, k, values, indices, out, seg);
    assert indices[..][out..out + k] == indices[out..out + k];
    assert values[..][out..out + k] == values[out..out + k];
  }

  /**
   * `std::iota` then `std::partial_sort` on the stretch of `full_indices`
   * at `base`: the positions of `row`, the `k` of its largest entries first.
   */
  method RankRow(row: seq<int>, full: array<int>, base: nat, k: nat)
    requires base + |row| <= full.Length && k <= |row|
    modifies full
    ensures PartiallySorted(row, full[base..base + |row|], k)
  {
    FillIota(full, base, |row|);
    IotaArrangement(|row|);
    PartialSort(row, full, base, k);
  }

  lemma {:induction false} IotaArrangement(depth: nat)
    ensures Arrangement(Iota(depth), depth)
  {
  }

  /** Rows before `i` done, writing row `i` alone gives rows up to `i` done. */
  lemma {:induction false} RowsStep(xs: seq<int>, depth: nat, k: nat, ind0: seq<int>, val0: seq<int>,
                                    ind1: seq<int>, val1: seq<int>, i: nat)
    requires forall i' | 0 <= i' < i :: RowDone(xs, depth, k, ind0, val0, i')
    requires RowAt(xs, depth, k, ind1, val1, i * depth, i * k) && |ind1| == |ind0| && |val1| == |val0|
    requires ind1[..i * k] == ind0[..i * k] && val1[..i * k] == val0[..i * k]
    ensures forall i' | 0 <= i' < i + 1 :: RowDone(xs, depth, k, ind1, val1, i')
  {
    forall i' | 0 <= i' < i
      ensures RowDone(xs, depth, k, ind1, val1, i')
    {
      RowKept(xs, depth, k, ind0, val0, ind1, val1, i', i);
    }
  }

  /** Writing from row `i` on leaves the result of an earlier row `i'` as it was. */
  lemma {:induction false} RowKept(xs: seq<int>, depth: nat, k: nat, ind0: seq<int>, val0: seq<int>,
                                   ind1: seq<int>, val1: seq<int>, i': nat, i: nat)
    requires RowDone(xs, depth, k, ind0, val0, i') && i' < i && i * k <= |ind0| && i * k <= |val0|
    requires |ind1| == |ind0| && |val1| == |val0|
    requires ind1[..i * k] == ind0[..i * k] && val1[..i * k] == val0[..i * k]
    ensures RowDone(xs, depth, k, ind1, val1, i')
  {
    RowBefore(i', i, k);
    assert ind1[i' * k..i' * k + k] == ind1[..i * k][i' * k..i' * k + k];
    assert ind0[i' * k..i' * k + k] == ind0[..i * k][i' * k..i' * k + k];
    assert val1[i' * k..i' * k + k] == val1[..i * k][i' * k..i' * k + k];
    assert val0[i' * k..i' * k + k] == val0[..i * k][i' * k..i' * k + k];
  }

  /** `std::iota`: the positions `0 .. depth - 1` at `base`, the rest of `full` untouched. */
  method FillIota(full: array<int>, base: nat, depth: nat)
    requires base + depth <= full.Length
    modifies full
    ensures full[base..base + depth] == Iota(depth)
    ensures full[..base] == old(full[..base]) && full[base + depth..] == old(full[base + depth..])
  {
    for c := 0 to depth
      invariant forall t | base <= t < base + c :: full[t] == t - base
      invariant full[..base] == old(full[..base]) && full[base + depth..] == old(full[base + depth..])
    {
      full[base + c] := c;
    }
  }

  /**
   * `std::partial_sort` of the positions at `base`, largest entry of `row`
   * first, up to `k` of them: here by selection, each step bringing a
   * largest of the positions not yet placed to the front.
   */
  method PartialSort(row: seq<int>, ids: array<int>, base: nat, k: nat)
    requires base + |row| <= ids.Length && k <= |row|
    requires Arrangement(ids[base..base + |row|], |row|)
    modifies ids
    ensures PartiallySorted(row, ids[base..base + |row|], k)
    ensures ids[..base] == old(ids[..base]) && ids[base + |row|..] == old(ids[base + |row|..])
  {
    var p := 0;
    while p < k
      invariant p <= k
      invariant PartiallySorted(row, ids[base..base + |row|], p)
      invariant ids[..base] == old(ids[..base]) && ids[base + |row|..] == old(ids[base + |row|..])
    {
      ghost var seg := ids[base..base + |row|];
      var m := Largest(row, ids, base, p, seg);
      SelectStep(row, seg, p, m);
      Swap(ids, base, |row|, p, m);
      assert PartiallySorted(row, Swapped(seg, p, m), p + 1);
      assert ids[base..base + |row|] == Swapped(seg, p, m);
      p := p + 1;
    }
  }

  /** A position among `p .. |row| - 1` of the window `seg` at `base` whose entry is largest. */
  method Largest(row: seq<int>, ids: array<int>, base: nat, p: nat, ghost seg: seq<int>) returns (m: nat)
    requires base + |row| <= ids.Length && p < |row| && seg == ids[base..base + |row|]
    requires forall c | 0 <= c < |row| :: 0 <= seg[c] < |row|
    ensures p <= m < |row|
    ensures forall q | p <= q < |row| :: row[seg[q]] <= row[seg[m]]
  {
    m := p;
    var q := p + 1;
    while q < |row|
      invariant p <= m < q <= |row|
      invariant forall q' | p <= q' < q :: row[seg[q']] <= row[seg[m]]
    {
      assert ids[base + q] == seg[q] && ids[base + m] == seg[m];
      if row[ids[base + q]] > row[ids[base + m]] {
        m := q;
      }
      q := q + 1;
    }
  }

  /** `s` with the entries at `p` and `q` exchanged. */
  function Swapped(s: seq<int>, p: nat, q: nat): seq<int>
    requires p < |s| && q < |s|
  {
    s[p := s[q]][q := s[p]]
  }

  /** `std::swap` of the entries at `p` and `q` of the window of `d` entries at `base`. */
  method Swap(a: array<int>, base: nat, d: nat, p: nat, q: nat)
    requires base + d <= a.Length && p < d && q < d
    modifies a
    ensures a[base..base + d] == Swapped(old(a[base..base + d]), p, q)
    ensures a[..base] == old(a[..base]) && a[base + d..] == old(a[base + d..])
  {
    a[base + p], a[base + q] := a[base + q], a[base + p];
  }

  /** Exchanging two entries keeps the multiset of entries. */
  lemma {:induction false} SwapMultiset(seg: seq<int>, p: nat, q: nat)
    requires p < |seg| && q < |seg|
    ensures multiset(Swapped(seg, p, q)) == multiset(seg)
  {
    var t1 := seg[p := seg[q]];
    assert multiset(t1) == multiset(seg) - multiset{seg[p]} + multiset{seg[q]};
    var t := t1[q := seg[p]];
    assert multiset(t) == multiset(t1) - multiset{t1[q]} + multiset{seg[p]};
  }

  /** Exchanging two positions keeps an arrangement one. */
  lemma {:induction false} SwapArrangement(seg: seq<int>, depth: nat, p: nat, q: nat)
    requires Arrangement(seg, depth) && p < depth && q < depth
    ensures Arrangement(Swapped(seg, p, q), depth)
  {
    SwapMultiset(seg, p, q);
    var t := Swapped(seg, p, q);
    forall a, b | 0 <= a < b < depth ensures t[a] != t[b] {
    }
  }

  /**
   * One step of the selection: with the first `p` positions placed and
   * `m` a largest of the rest, exchanging `p` and `m` places `p + 1`.
   */
  lemma {:induction false} SelectStep(row: seq<int>, seg: seq<int>, p: nat, m: nat)
    requires PartiallySorted(row, seg, p) && p <= m < |seg|
    requires forall q | p <= q < |seg| :: row[seg[q]] <= row[seg[m]]
    ensures PartiallySorted(row, Swapped(seg, p, m), p + 1)
  {
    SwapArrangement(seg, |row|, p, m);
    var t := Swapped(seg, p, m);
    forall a, b | 0 <= a < b < p + 1 ensures row[t[b]] <= row[t[a]] {
      if b == p {
        assert t[b] == seg[m];
      }
    }
    forall a, b | 0 <= a < p + 1 <= b < |seg| ensures row[t[b]] <= row[t[a]] {
      if b == m {
        assert t[b] == seg[p];
      }
    }
  }

  /** The entries of `row` at the positions `ind`. */
  function Entries(row: seq<int>, ind: seq<int>): (val: seq<int>)
    requires forall j | 0 <= j < |ind| :: 0 <= ind[j] < |row|
    ensures |val| == |ind| && forall j | 0 <= j < |ind| :: val[j] == row[ind[j]]
  {
    if ind == [] then [] else Entries(row, ind[..|ind| - 1]) + [row[ind[|ind| - 1]]]
  }

  /**
   * The loop after `partial_sort`: `ind[j] = ids[j]` and
   * `val[j] = input[ind[j]]` for `j < k`, at `out` in both outputs;
   * `seg` is the stretch of `ids` at `base`.
   */
  method WriteRow(row: seq<int>, ids: array<int>, base: nat, k: nat, values: array<int>, indices: array<int>, out: nat,
                  ghost seg: seq<int>)
    requires base + |row| <= ids.Length && seg == ids[base..base + |row|] && k <= |row|
    requires out + k <= values.Length && out + k <= indices.Length
    requires values != indices && ids != indices && ids != values
    requires PartiallySorted(row, seg, k)
    modifies values, indices
    ensures TopRow(row, k, indices[out..out + k], values[out..out + k])
    ensures indices[..out] == old(indices[..out]) && indices[out + k..] == old(indices[out + k..])
    ensures values[..out] == old(values[..out]) && values[out + k..] == old(values[out + k..])
  {
    for j := 0 to k
      invariant forall t | out <= t < out + j :: indices[t] == seg[t - out]
      invariant forall t | out <= t < out + j :: values[t] == row[seg[t - out]]
      invariant indices[..out] == old(indices[..out]) && indices[out + k..] == old(indices[out + k..])
      invariant values[..out] == old(values[..out]) && values[out + k..] == old(values[out + k..])
    {
      assert ids[base + j] == seg[j];
      indices[out + j] := ids[base + j];
      values[out + j] := row[indices[out + j]];
    }
    assert indices[out..out + k] == seg[..k];
    assert values[out..out + k] == Entries(row, seg[..k]);
    TopOfSorted(row, seg, k, seg[..k], Entries(row, seg[..k]));
  }

  /** The first `k` of partially sorted positions, with their entries, are the row's result. */
  lemma {:induction false} TopOfSorted(row: seq<int>, seg: seq<int>, k: nat, ind: seq<int>, val: seq<int>)
    requires PartiallySorted(row, seg, k) && ind == seg[..k] && val == Entries(row, ind)
    ensures TopRow(row, k, ind, val)
  {
    forall c, j | 0 <= c < |row| && c !in ind && 0 <= j < k
      ensures row[c] <= val[j]
    {
      assert c in multiset(Iota(|row|)) by {
        assert Iota(|row|)[c] == c;
      }
      assert c in multiset(seg);
      var b :| 0 <= b < |seg| && seg[b] == c;
      assert forall b' | 0 <= b' < k :: seg[b'] == ind[b'];
    }
  }

  /** The first kept entry is a largest entry of the row. */
  lemma {:induction false} FirstIsLargest(row: seq<int>, k: nat, ind: seq<int>, val: seq<int>)
    requires TopRow(row, k, ind, val) && k > 0
    ensures forall c | 0 <= c < |row| :: row[c] <= val[0]
  {
    forall c | 0 <= c < |row| ensures row[c] <= val[0] {
      if c in ind {
        var j :| 0 <= j < k && ind[j] == c;
        if j > 0 {
          assert val[j] <= val[0];
        }
      }
    }
  }
}
