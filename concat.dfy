/**
 * The `Concat` op: the mirror image of `Split`. Each input fills its block
 * of columns of the output, viewed as rows cut along the axis, the blocks
 * following one another in the order of the inputs.
 */
module ConcatOp {
  import opened Tensors
  import opened Blocks

  /** The op's setting: `_axis`, which may count from the end. */
  datatype Concat = Concat(axis: int)

  /**
   * Input shape `shape` fits the output of shape `outShape` along `axis`
   * with its block of columns at `offset`: the same dimensions but along
   * the axis, `w` elements per row from the axis on, within the row.
   */
  ghost predicate Fitting(outShape: Shape, shape: Shape, axis: nat, offset: nat, w: nat)
  {
    && axis < |outShape| && SameBut(shape, outShape, axis)
    && w == Product(shape[axis..]) && offset + w <= Product(outShape[axis..])
  }

  /**
   * `compute(inputs, output)`: the axis counts against the output's rank;
   * input `j`, of shape `shapes[j]` with rows of `widths[j]` elements,
   * lands in the columns after those of the inputs before it, and inputs
   * with no elements per row are passed over. The rest of the output, past
   * the last block, is left as it was.
   */
  method Compute(op: Concat, inputs: seq<StorageView>, output: StorageView,
                 ghost parts: seq<seq<int>>, ghost shapes: seq<Shape>, ghost widths: seq<nat>)
    requires output.Valid() && 0 <= NormalizeAxis(op.axis, |output.shape|) < |output.shape|
    requires |inputs| == |parts| == |shapes| == |widths|
    requires forall j | 0 <= j < |inputs| :: inputs[j].Valid() && inputs[j].shape == shapes[j] && inputs[j].buf != output.buf
    requires forall j | 0 <= j < |inputs| :: inputs[j].Elements() == parts[j]
    requires forall j {:trigger Fitting(output.shape, shapes[j], NormalizeAxis(op.axis, |output.shape|), Sum(widths[..j]), widths[j])}
      | 0 <= j < |inputs| ::
      Fitting(output.shape, shapes[j], NormalizeAxis(op.axis, |output.shape|), Sum(widths[..j]), widths[j])
    modifies output.buf
    ensures forall j | 0 <= j < |inputs| ::
      Columns(output.Elements(), Product(output.shape[NormalizeAxis(op.axis, |output.shape|)..]), Sum(widths[..j]), widths[j])
      == parts[j]
    ensures KeptOutside(old(output.Elements()), output.Elements(), Product(output.shape[..NormalizeAxis(op.axis, |output.shape|)]),
                        Product(output.shape[NormalizeAxis(op.axis, |output.shape|)..]), 0, Sum(widths))
  {
    var axis := NormalizeAxis(op.axis, |output.shape|);
    ghost var n, row := Product(output.shape[..axis]), Product(output.shape[axis..]);
    ProductSplit(output.shape, axis);
    ghost var out0 := output.Elements();
    KeptSame(out0, n, row, 0, 0);
    var offset := 0;
    var j := 0;
    while j < |inputs|
      invariant 0 <= j <= |inputs| && offset == Sum(widths[..j])
      invariant forall j' {:trigger inputs[j']} | 0 <= j' < |inputs| :: inputs[j'].Elements() == parts[j']
      invariant Written(output.Elements(), out0, parts, widths, n, row, j)
    {
      assert Fitting(output.shape, shapes[j], axis, Sum(widths[..j]), widths[j]);
      SumPrefixBound(widths, j);
      ghost var before := output.Elements();
      var copyDim := ConcatInput(inputs[j], output, axis, offset, n, row, parts[j], widths[j]);
      ConcatStep(out0, before, output.Elements(), parts, widths, n, row, j);
      offset := offset + copyDim;
      j := j + 1;
    }
    assert widths[..j] == widths;
  }

  /**
   * The body of the loop of `compute` for input `x`: its `iter_dim` and
   * `copy_dim`, then, unless `copy_dim` is zero, its rows copied into its
   * block of the output's rows, which start `offset` elements in.
   */
  method ConcatInput(x: StorageView, output: StorageView, axis: nat, offset: nat,
                     ghost n: nat, ghost row: nat, ghost part: seq<int>, ghost w: nat) returns (copyDim: nat)
    requires output.Valid() && x.Valid() && x.buf != output.buf && x.Elements() == part
    requires Fitting(output.shape, x.shape, axis, offset, w)
    requires n == Product(output.shape[..axis]) && row == Product(output.shape[axis..])
    modifies output.buf
    ensures copyDim == w
    ensures Columns(output.Elements(), row, offset, w) == part
    ensures KeptOutside(old(output.Elements()), output.Elements(), n, row, offset, w)
  {
    var iterDim;
    iterDim, copyDim := OuterAndBlock(x.shape, axis);
    assert x.shape[..axis] == output.shape[..axis];
    ProductSplit(x.shape, axis);
    ProductSplit(output.shape, axis);
    if copyDim != 0 {
      ConcatOne(x, output, axis, offset, iterDim, copyDim);
    } else {
      NothingToConcat(output.Elements(), part, n, row, offset, iterDim);
      KeptSame(output.Elements(), n, row, offset, 0);
    }
  }

  /**
   * The first `j` inputs are in their blocks of `out`, and the columns
   * after them still hold what `out0` held.
   */
  ghost predicate Written(out: seq<int>, out0: seq<int>, parts: seq<seq<int>>, widths: seq<nat>, n: nat, row: nat, j: nat)
  {
    && j <= |parts| == |widths| && Sum(widths[..j]) <= row
    && KeptOutside(out0, out, n, row, 0, Sum(widths[..j]))
    && forall j' | 0 <= j' < j :: Sum(widths[..j']) + widths[j'] <= row
         && Columns(out, row, Sum(widths[..j']), widths[j']) == parts[j']
  }

  /** A buffer keeps itself outside any columns. */
  lemma {:induction false} KeptSame(a: seq<int>, n: nat, row: nat, off: nat, w: nat)
    requires |a| == n * row
    ensures KeptOutside(a, a, n, row, off, w)
  {
    forall i, c | 0 <= i < n && 0 <= c < row ensures SameCell(a, a, n, row, i, c) {
      FlatBound(i, c, n, row);
    }
  }

  /** An input with no elements per row has no elements, and its block is empty: nothing to copy. */
  lemma {:induction false} NothingToConcat(out: seq<int>, part: seq<int>, n: nat, row: nat, offset: nat, iterDim: nat)
    requires |out| == n * row && offset <= row && |part| == iterDim * 0
    ensures Columns(out, row, offset, 0) == part
  {
    ColumnsLength(out, n, row, offset, 0);
  }

  /** One more input in its block, nothing else touched: the earlier blocks stay, one block more is written. */
  lemma {:induction false} ConcatStep(out0: seq<int>, before: seq<int>, after: seq<int>, parts: seq<seq<int>>,
                                      widths: seq<nat>, n: nat, row: nat, j: nat)
    requires Written(before, out0, parts, widths, n, row, j) && j < |parts|
    requires Sum(widths[..j + 1]) == Sum(widths[..j]) + widths[j] && Sum(widths[..j]) + widths[j] <= row
    requires Columns(after, row, Sum(widths[..j]), widths[j]) == parts[j]
    requires KeptOutside(before, after, n, row, Sum(widths[..j]), widths[j])
    ensures Written(after, out0, parts, widths, n, row, j + 1)
  {
    var offset := Sum(widths[..j]);
    forall j' | 0 <= j' < j + 1
      ensures Sum(widths[..j']) + widths[j'] <= row
      ensures Columns(after, row, Sum(widths[..j']), widths[j']) == parts[j']
    {
      if j' < j {
        SumPrefixBound(widths, j');
        PrefixSumMonotone(widths, j' + 1, j);
        ColumnsKept(before, after, n, row, offset, widths[j], Sum(widths[..j']), widths[j']);
      }
    }
    forall i, c | 0 <= i < n && 0 <= c < row && !(0 <= c < offset + widths[j])
      ensures SameCell(out0, after, n, row, i, c)
    {
      assert SameCell(out0, before, n, row, i, c);
      assert SameCell(before, after, n, row, i, c);
    }
  }

  /**
   * One input of `compute`: row `i` of `x` goes to row `i` of the output,
   * from column `offset` on, for each of its `iterDim` rows of `copyDim`.
   */
  method ConcatOne(x: StorageView, output: StorageView, axis: nat, offset: nat, iterDim: nat, copyDim: nat)
    requires x.Valid() && output.Valid() && x.buf != output.buf && axis < |output.shape|
    requires Product(output.shape) == iterDim * Product(output.shape[axis..])
    requires Product(x.shape) == iterDim * copyDim && offset + copyDim <= Product(output.shape[axis..])
    modifies output.buf
    ensures Columns(output.Elements(), Product(output.shape[axis..]), offset, copyDim) == x.Elements()
    ensures KeptOutside(old(output.Elements()), output.Elements(), iterDim, Product(output.shape[axis..]), offset, copyDim)
  {
    ghost var out0 := output.Elements();
    ghost var row := Product(output.shape[axis..]);
    ProductFrom(output.shape, axis);
    KeptSame(out0, iterDim, row, offset, copyDim);
    var rowLen := output.shape[axis] * Stride(output.shape, axis);
    var i := 0;
    while i < iterDim
      invariant 0 <= i <= iterDim
      invariant BlockRows(x.Elements(), output.Elements(), iterDim, row, offset, copyDim, i)
      invariant KeptOutside(out0, output.Elements(), iterDim, row, offset, copyDim)
    {
      ghost var before := output.Elements();
      FlatEnd(i, copyDim, iterDim, copyDim);
      FlatEnd(i, 0, iterDim, copyDim);
      FlatEnd(i, offset + copyDim, iterDim, row);
      FlatEnd(i, offset, iterDim, row);
      var to := offset + i * rowLen;
      CopyElements(x, i * copyDim, output, to, copyDim);
      WholeRowWritten(x.Elements(), before, output.Elements(), iterDim, row, offset, copyDim, i);
      OutsideRowWritten(out0, before, output.Elements(), iterDim, row, offset, copyDim, i);
      i := i + 1;
    }
    BlockIsColumns(x.Elements(), output.Elements(), iterDim, row, offset, copyDim);
  }
}
