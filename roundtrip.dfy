/**
 * Split and concat are inverse: the parts a split produces fit a concat
 * along the same axis, and concatenating them gives the input back; the
 * other way round, splitting a concatenation gives back its inputs.
 */
module RoundTrip {
  import opened Tensors
  import opened Blocks
  import opened SplitOp
  import opened ConcatOp

  /**
   * The outputs of a split along `axis` into `sizes` fit, in their order,
   * a concat into a tensor of the input's shape: each has the input's
   * shape but along the axis, and its rows, `widths[j]` elements long,
   * take the columns after those of the parts before it.
   */
  lemma {:induction false} SplitPartsFit(op: Split, input: StorageView, outputs: seq<StorageView>, axis: nat,
                                         sizes: seq<nat>, widths: seq<nat>)
    requires input.Valid() && axis < |input.shape| && |sizes| == |outputs| && Sum(sizes) == input.shape[axis]
    requires forall j | 0 <= j < |outputs| :: IsPart(op, input, outputs[j], axis, sizes, j)
    requires widths == Scaled(sizes, Stride(input.shape, axis))
    ensures forall j | 0 <= j < |outputs| :: Fitting(input.shape, outputs[j].shape, axis, Sum(widths[..j]), widths[j])
    ensures Sum(widths) == Product(input.shape[axis..])
  {
    SumScaled(sizes, Stride(input.shape, axis));
    ProductFrom(input.shape, axis);
    forall j | 0 <= j < |outputs|
      ensures Fitting(input.shape, outputs[j].shape, axis, Sum(widths[..j]), widths[j])
    {
      assert IsPart(op, input, outputs[j], axis, sizes, j);
      PartFitsConcat(input.shape, outputs[j].shape, axis, sizes, widths, j);
    }
  }

  /** The shape of one part of a split fits its place in a concat. */
  lemma {:induction false} PartFitsConcat(shape: Shape, x: Shape, axis: nat, sizes: seq<nat>, widths: seq<nat>, j: nat)
    requires axis < |shape| && j < |sizes| && Sum(sizes) == shape[axis]
    requires x == shape[axis := sizes[j]]
    requires widths == Scaled(sizes, Stride(shape, axis))
    ensures Fitting(shape, x, axis, Sum(widths[..j]), widths[j])
  {
    var k := Stride(shape, axis);
    assert x[..axis] == shape[..axis] && x[axis + 1..] == shape[axis + 1..];
    ProductFromReplaced(shape, axis, sizes[j]);
    SumScaled(sizes, k);
    ProductFrom(shape, axis);
    SumPrefixBound(widths, j);
    PrefixSumMonotone(widths, j + 1, |widths|);
    assert widths[..|widths|] == widths;
  }

  /**
   * Concat after split: an output of the input's shape whose blocks hold
   * the split's parts, as concat leaves them, holds the input's elements.
   */
  lemma {:induction false} SplitThenConcat(op: Split, input: StorageView, outputs: seq<StorageView>, axis: nat,
                                           sizes: seq<nat>, widths: seq<nat>, output: StorageView)
    requires input.Valid() && axis < |input.shape| && |sizes| == |outputs| && Sum(sizes) == input.shape[axis]
    requires forall j | 0 <= j < |outputs| :: IsPart(op, input, outputs[j], axis, sizes, j)
    requires widths == Scaled(sizes, Stride(input.shape, axis))
    requires output.Valid() && output.shape == input.shape
    requires forall j | 0 <= j < |outputs| ::
      outputs[j].Valid() && Columns(output.Elements(), Product(output.shape[axis..]), Sum(widths[..j]), widths[j]) == outputs[j].Elements()
    ensures output.Elements() == input.Elements()
  {
    var k := Stride(input.shape, axis);
    var n, row := Product(input.shape[..axis]), Product(input.shape[axis..]);
    SplitPartsFit(op, input, outputs, axis, sizes, widths);
    ProductSplit(input.shape, axis);
    forall j | 0 <= j < |widths|
      ensures Columns(output.Elements(), row, Sum(widths[..j]), widths[j])
           == Columns(input.Elements(), row, Sum(widths[..j]), widths[j])
    {
      assert IsPart(op, input, outputs[j], axis, sizes, j);
      SumScaledPrefix(sizes, k, j);
    }
    ColumnsDetermine(widths, output.Elements(), input.Elements(), n, row);
  }

  /**
   * Split after concat: splitting, along the concat's axis and into the
   * inputs' sizes, a tensor whose blocks hold `parts` gives back `parts`.
   */
  lemma {:induction false} ConcatThenSplit(op: Split, input: StorageView, outputs: seq<StorageView>, axis: nat,
                                           sizes: seq<nat>, widths: seq<nat>, parts: seq<seq<int>>)
    requires input.Valid() && axis < |input.shape| && |sizes| == |outputs| == |parts|
    requires widths == Scaled(sizes, Stride(input.shape, axis))
    requires forall j | 0 <= j < |parts| ::
      Columns(input.Elements(), Product(input.shape[axis..]), Sum(widths[..j]), widths[j]) == parts[j]
    requires forall j | 0 <= j < |outputs| :: IsPart(op, input, outputs[j], axis, sizes, j)
    ensures forall j | 0 <= j < |outputs| :: outputs[j].Valid() && outputs[j].Elements() == parts[j]
  {
    forall j | 0 <= j < |outputs|
      ensures outputs[j].Elements() == parts[j]
    {
      assert IsPart(op, input, outputs[j], axis, sizes, j);
      SumScaledPrefix(sizes, Stride(input.shape, axis), j);
    }
  }
}
