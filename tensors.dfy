/**
 * Row-major tensors as the native ops see them: shapes, element counts,
 * flat offsets, and `StorageView`, a shape over a stretch of a buffer that
 * several views may share. Elements are modelled as integers: the ops below
 * only move them.
 */
module Tensors {

  type Shape = seq<nat>

  /** The number of elements of a tensor of this shape (`StorageView::size`). */
  function Product(shape: Shape): nat {
    if shape == [] then 1 else Product(shape[..|shape| - 1]) * shape[|shape| - 1]
  }

  /** `stride(axis)`: how far apart two neighbours along `axis` lie. */
  function Stride(shape: Shape, axis: nat): nat
    requires axis < |shape|
  {
    Product(shape[axis + 1..])
  }

  lemma {:induction false} ProductSplit(shape: Shape, k: nat)
    requires k <= |shape|
    ensures Product(shape) == Product(shape[..k]) * Product(shape[k..])
    decreases |shape|
  {
    if k == |shape| {
      assert shape[..k] == shape;
      assert shape[k..] == [];
    } else {
      var init := shape[..|shape| - 1];
      var last := shape[|shape| - 1];
      ProductSplit(init, k);
      assert init[..k] == shape[..k];
      assert shape[k..][..|shape[k..]| - 1] == init[k..];
      calc {
        Product(shape);
        Product(init) * last;
        Product(shape[..k]) * Product(init[k..]) * last;
        Product(shape[..k]) * (Product(init[k..]) * last);
        Product(shape[..k]) * Product(shape[k..]);
      }
    }
  }

  /** The elements from `axis` on form `dim(axis)` blocks of `stride(axis)` elements. */
  lemma {:induction false} ProductFrom(shape: Shape, axis: nat)
    requires axis < |shape|
    ensures Product(shape[axis..]) == shape[axis] * Stride(shape, axis)
  {
    var tail := shape[axis..];
    ProductSplit(tail, 1);
    assert tail[..1] == [shape[axis]];
    assert [shape[axis]][..0] == [];
    assert tail[1..] == shape[axis + 1..];
  }

  /** Replacing the dimension of `axis` scales the count from `axis` on accordingly. */
  lemma {:induction false} ProductFromReplaced(shape: Shape, axis: nat, d: nat)
    requires axis < |shape|
    ensures Product(shape[axis := d][axis..]) == d * Stride(shape, axis)
    ensures Product(shape[axis := d][..axis]) == Product(shape[..axis])
  {
    var s := shape[axis := d];
    ProductFrom(s, axis);
    assert s[axis + 1..] == shape[axis + 1..];
    assert s[..axis] == shape[..axis];
  }

  /** A negative axis counts from the end. */
  function NormalizeAxis(axis: int, rank: nat): int {
    if axis < 0 then rank + axis else axis
  }

  /** `x` has the shape of `input` except along `axis`. */
  ghost predicate SameBut(x: Shape, input: Shape, axis: nat)
    requires axis < |input|
  {
    |x| == |input| && x[..axis] == input[..axis] && x[axis + 1..] == input[axis + 1..]
  }

  function Sum(s: seq<nat>): nat {
    if s == [] then 0 else Sum(s[..|s| - 1]) + s[|s| - 1]
  }

  lemma {:induction false} SumPrefixBound(s: seq<nat>, j: nat)
    requires j < |s|
    ensures Sum(s[..j + 1]) == Sum(s[..j]) + s[j]
    ensures Sum(s[..j + 1]) <= Sum(s)
    decreases |s|
  {
    assert s[..j + 1][..j] == s[..j];
    if j + 1 < |s| {
      SumPrefixBound(s[..|s| - 1], j);
      assert s[..|s| - 1][..j + 1] == s[..j + 1];
    } else {
      assert s[..j + 1] == s;
    }
  }

  /** `n` equal parts of size `q` add up to `n * q`. */
  lemma {:induction false} SumConstant(n: nat, q: nat)
    ensures Sum(seq(n, _ => q)) == n * q
  {
    if n > 0 {
      SumConstant(n - 1, q);
      assert seq(n, _ => q)[..n - 1] == seq(n - 1, _ => q);
    }
  }

  /** The flat offset of column `c` of row `i` when rows are `width` long. */
  function Flat(i: int, width: int, c: int): int {
    i * width + c
  }

  lemma {:induction false} FlatBound(i: nat, c: nat, n: nat, w: nat)
    requires i < n && c < w
    ensures 0 <= Flat(i, w, c) < n * w
  {
    assert Flat(i, w, c) < (i + 1) * w;
    assert (i + 1) * w <= n * w;
  }

  /** The next row starts `w` further on. */
  lemma {:induction false} FlatNext(i: nat, w: nat, c: int)
    ensures Flat(i + 1, w, c) == w + Flat(i, w, c)
  {
  }

  /** Dropping the first of `n` rows of `row` leaves `n - 1` rows. */
  lemma {:induction false} RowsAfterFirst(len: nat, n: nat, row: nat)
    requires len == n * row && n > 0
    ensures len - row == (n - 1) * row
  {
  }

  /** A row ends no later than the last row does. */
  lemma {:induction false} FlatEnd(i: nat, c: nat, n: nat, w: nat)
    requires i < n && c <= w
    ensures 0 <= Flat(i, w, c) <= n * w
  {
    assert Flat(i, w, c) <= (i + 1) * w;
    assert (i + 1) * w <= n * w;
  }

  /** Any cell of an earlier row precedes any cell of a later one. */
  lemma {:induction false} FlatOrder(i1: nat, c1: nat, i2: nat, c2: nat, w: nat)
    requires i1 < i2 && c1 < w
    ensures Flat(i1, w, c1) < Flat(i2, w, c2)
  {
    assert Flat(i1, w, c1) < (i1 + 1) * w;
    assert (i1 + 1) * w <= i2 * w;
  }

  /** Row and column are determined by the flat offset. */
  lemma {:induction false} FlatInjective(i1: nat, c1: nat, i2: nat, c2: nat, w: nat)
    requires c1 < w && c2 < w && Flat(i1, w, c1) == Flat(i2, w, c2)
    ensures i1 == i2 && c1 == c2
  {
    if i1 < i2 {
      FlatOrder(i1, c1, i2, c2, w);
    } else if i2 < i1 {
      FlatOrder(i2, c2, i1, c1, w);
    }
  }

  /** Every offset below `n * w` is a cell of a row below `n`. */
  lemma {:induction false} FlatCover(p: nat, n: nat, w: nat) returns (i: nat, c: nat)
    requires p < n * w
    ensures i < n && c < w && p == Flat(i, w, c)
    decreases n
  {
    if p < w {
      i, c := 0, p;
    } else {
      assert (n - 1) * w == n * w - w;
      var i', c' := FlatCover(p - w, n - 1, w);
      i, c := i' + 1, c';
    }
  }

  /** A stretch of a stretch is a stretch of the whole. */
  lemma {:induction false} SliceOfSlice(s: seq<int>, a: nat, b: nat, c: nat, d: nat)
    requires a <= b <= |s| && c <= d <= b - a
    ensures s[a..b][c..d] == s[a + c..a + d]
  {
    var inner, direct := s[a..b][c..d], s[a + c..a + d];
    forall k | 0 <= k < d - c ensures inner[k] == direct[k] {
      assert inner[k] == s[a..b][c + k];
    }
  }

  /** A tensor: a shape over the `Product(shape)` elements of `buf` from `start` on. */
  class StorageView {
    var shape: Shape
    var buf: array<int>
    var start: nat

    ghost predicate Valid()
      reads this
    {
      start + Product(shape) <= buf.Length
    }

    function Elements(): (r: seq<int>)
      reads this, buf
      requires Valid()
      ensures |r| == Product(shape)
    {
      buf[start..start + Product(shape)]
    }

    constructor (shape: Shape)
      ensures Valid() && this.shape == shape && start == 0
      ensures fresh(buf) && buf.Length == Product(shape)
    {
      this.shape := shape;
      buf := new int[Product(shape)];
      start := 0;
    }

    /** `resize(shape)`: the view gets storage of its own for the new shape. */
    method Resize(shape: Shape)
      modifies this
      ensures Valid() && this.shape == shape && start == 0
      ensures fresh(buf) && buf.Length == Product(shape)
    {
      this.shape := shape;
      buf := new int[Product(shape)];
      start := 0;
    }

    /** `view(data, shape)`: the view looks at someone else's storage. */
    method View(data: array<int>, from: nat, shape: Shape)
      requires from + Product(shape) <= data.Length
      modifies this
      ensures Valid() && buf == data && start == from && this.shape == shape
    {
      buf := data;
      start := from;
      this.shape := shape;
    }

    /** `shallow_copy(other)`: share the other view's storage and shape. */
    method ShallowCopy(other: StorageView)
      modifies this
      ensures buf == old(other.buf) && start == old(other.start) && shape == old(other.shape)
    {
      buf := other.buf;
      start := other.start;
      shape := other.shape;
    }

    /** `reshape(shape)`: same elements, new shape. */
    method Reshape(shape: Shape)
      requires Product(shape) == Product(this.shape)
      modifies this
      ensures this.shape == shape && buf == old(buf) && start == old(start)
    {
      this.shape := shape;
    }
  }

  /**
   * A copy between two buffers seen through windows (a view's elements are
   * the window `start .. start + size` of its buffer): the copied stretch and
   * the untouched rest, in window coordinates.
   */
  /** A view of the same storage starting `off` elements later holds that stretch of the elements. */
  lemma {:induction false} ViewOfStretch(v: StorageView, x: StorageView, off: nat, w: nat)
    requires v.Valid() && x.buf == v.buf && x.start == v.start + off
    requires Product(x.shape) == w && off + w <= Product(v.shape)
    ensures x.Valid() && x.Elements() == v.Elements()[off..off + w]
  {
    SliceOfSlice(v.buf[..], v.start, v.start + Product(v.shape), off, off + w);
  }

  lemma {:induction false} WindowCopy(dst0: seq<int>, dst1: seq<int>, src: seq<int>,
                                      dstStart: nat, dstSize: nat, srcStart: nat, srcSize: nat,
                                      to: nat, from: nat, n: nat)
      returns (w0: seq<int>, w1: seq<int>, ws: seq<int>)
    requires |dst1| == |dst0| && dstStart + dstSize <= |dst0| && srcStart + srcSize <= |src|
    requires to + n <= dstSize && from + n <= srcSize
    requires dst1[dstStart + to..dstStart + to + n] == src[srcStart + from..srcStart + from + n]
    requires forall k | 0 <= k < |dst0| && !(dstStart + to <= k < dstStart + to + n) :: dst1[k] == dst0[k]
    ensures w0 == dst0[dstStart..dstStart + dstSize] && w1 == dst1[dstStart..dstStart + dstSize]
    ensures ws == src[srcStart..srcStart + srcSize]
    ensures w1[to..to + n] == ws[from..from + n]
    ensures forall k | 0 <= k < dstSize && !(to <= k < to + n) :: w1[k] == w0[k]
  {
    w1 := dst1[dstStart..dstStart + dstSize];
    w0 := dst0[dstStart..dstStart + dstSize];
    ws := src[srcStart..srcStart + srcSize];
    var copied, read := w1[to..to + n], ws[from..from + n];
    forall k | 0 <= k < n ensures copied[k] == read[k] {
      assert copied[k] == dst1[dstStart + to..dstStart + to + n][k];
      assert read[k] == src[srcStart + from..srcStart + from + n][k];
    }
    forall k | 0 <= k < dstSize && !(to <= k < to + n) ensures w1[k] == w0[k] {
      assert w1[k] == dst1[dstStart + k] && w0[k] == dst0[dstStart + k];
    }
  }

  /** `primitives<>::copy(src + from, dst + to, n)`. */
  method CopyBlock(src: array<int>, from: nat, dst: array<int>, to: nat, n: nat)
    requires src != dst
    requires from + n <= src.Length && to + n <= dst.Length
    modifies dst
    ensures dst[to..to + n] == src[from..from + n]
    ensures forall k | 0 <= k < dst.Length && !(to <= k < to + n) :: dst[k] == old(dst[k])
  {
    var c := 0;
    while c < n
      invariant 0 <= c <= n
      invariant dst[to..to + c] == src[from..from + c]
      invariant forall k | 0 <= k < dst.Length && !(to <= k < to + c) :: dst[k] == old(dst[k])
    {
      dst[to + c] := src[from + c];
      c := c + 1;
    }
  }

  /**
   * The loops of `compute` that multiply the dimensions before `axis` into
   * `iter_dim` and the dimensions from `axis` on into `copy_dim`.
   */
  method OuterAndBlock(shape: Shape, axis: nat) returns (iterDim: nat, copyDim: nat)
    requires axis <= |shape|
    ensures iterDim == Product(shape[..axis]) && copyDim == Product(shape[axis..])
  {
    iterDim := 1;
    copyDim := 1;
    var i := 0;
    while i < axis
      invariant 0 <= i <= axis && iterDim == Product(shape[..i])
    {
      assert shape[..i + 1][..i] == shape[..i];
      iterDim := iterDim * shape[i];
      i := i + 1;
    }
    i := axis;
    while i < |shape|
      invariant axis <= i <= |shape| && copyDim == Product(shape[axis..i])
    {
      assert shape[axis..i + 1][..i - axis] == shape[axis..i];
      copyDim := copyDim * shape[i];
      i := i + 1;
    }
    assert shape[axis..|shape|] == shape[axis..];
  }

  /**
   * `primitives<>::copy(src.data() + from, dst + to, n)` out of a view into
   * a buffer of its own, in the view's own element positions.
   */
  method CopyOut(src: StorageView, from: nat, dst: array<int>, to: nat, n: nat)
    requires src.Valid() && src.buf != dst
    requires from + n <= Product(src.shape) && to + n <= dst.Length
    modifies dst
    ensures dst[to..to + n] == src.Elements()[from..from + n]
    ensures forall k | 0 <= k < dst.Length && !(to <= k < to + n) :: dst[k] == old(dst[k])
  {
    CopyBlock(src.buf, src.start + from, dst, to, n);
    ghost var e := src.Elements();
    assert e[from..from + n] == src.buf[src.start + from..src.start + from + n] by {
      var read := e[from..from + n];
      forall k | 0 <= k < n ensures read[k] == src.buf[src.start + from + k] {
        assert read[k] == e[from + k];
      }
    }
  }

  /**
   * `primitives<>::copy(src.data() + from, dst.data() + to, n)` on two views
   * over different buffers, in the views' own element positions.
   */
  method CopyElements(src: StorageView, from: nat, dst: StorageView, to: nat, n: nat)
    requires src.Valid() && dst.Valid() && src.buf != dst.buf
    requires from + n <= Product(src.shape) && to + n <= Product(dst.shape)
    modifies dst.buf
    ensures dst.Elements()[to..to + n] == src.Elements()[from..from + n]
    ensures forall k | 0 <= k < Product(dst.shape) && !(to <= k < to + n) :: dst.Elements()[k] == old(dst.Elements())[k]
  {
    ghost var before := dst.buf[..];
    CopyBlock(src.buf, src.start + from, dst.buf, dst.start + to, n);
    ghost var w0, w1, ws := WindowCopy(before, dst.buf[..], src.buf[..], dst.start, Product(dst.shape),
                                       src.start, Product(src.shape), to, from, n);
    assert w1 == dst.Elements() && ws == src.Elements() && w0 == old(dst.Elements());
  }
}
