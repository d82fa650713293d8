/**
 * The `Split` op: cut a tensor along one axis into consecutive parts,
 * either copying each part into storage of its own or, along the first
 * axis only, letting each output view the input's storage in place.
 */
module SplitOp {
  import opened Wrappers
  import opened Tensors
  import opened Blocks

  const NO_COPY_AXIS := "no_copy is only defined when splitting across the first dimension"
  const COUNT_MISMATCH := "outputs are passed but a different number of split sizes were configured"
  const DIM_MISMATCH := "the axis dimension differs from the total of the split sizes"
  const NOT_DIVISIBLE := "the axis dimension is not divisible by the number of outputs"

  /** The op's settings: `_axis`, `_split`, `_total_size` and `_no_copy`. */
  datatype Split = Split(axis: int, sizes: seq<nat>, totalSize: nat, noCopy: bool)

  /** What construction establishes: the total is the sum of the sizes, and `check_arguments` passed. */
  ghost predicate Constructed(op: Split) {
    op.totalSize == Sum(op.sizes) && (!op.noCopy || op.axis == 0)
  }

  /**
   * Both constructors (the one without sizes passes `[]`): in-place
   * splitting is refused unless the axis is the first.
   */
  function NewSplit(axis: int, sizes: seq<nat>, noCopy: bool): (r: Result<Split>)
    ensures r.Success? <==> !noCopy || axis == 0
    ensures r.Failure? ==> r.error == NO_COPY_AXIS
    ensures r.Success? ==> Constructed(r.value) && r.value.axis == axis && r.value.sizes == sizes && r.value.noCopy == noCopy
  {
    if noCopy && axis != 0 then Failure(NO_COPY_AXIS) else Success(Split(axis, sizes, Sum(sizes), noCopy))
  }

  /**
   * The checks of `operator()`, in their order, and on success the size of
   * each of the `n` outputs along the axis of dimension `dim`: the configured
   * sizes, or `n` equal parts.
   */
  function PartSizes(op: Split, dim: nat, n: nat): (r: Result<seq<nat>>)
    requires Constructed(op) && (op.sizes != [] || n > 0)
    ensures r.Success? <==> if op.sizes != [] then |op.sizes| == n && dim == Sum(op.sizes) else dim % n == 0
    ensures r.Failure? ==> r.error == (if op.sizes == [] then NOT_DIVISIBLE
                                       else if |op.sizes| != n then COUNT_MISMATCH else DIM_MISMATCH)
    ensures r.Success? ==> |r.value| == n && Sum(r.value) == dim
  {
    if op.sizes != [] then
      if |op.sizes| != n then Failure(COUNT_MISMATCH)
      else if dim != op.totalSize then Failure(DIM_MISMATCH)
      else Success(op.sizes)
    else if dim % n != 0 then Failure(NOT_DIVISIBLE)
    else
      SumConstant(n, dim / n);
      Success(seq(n, _ => dim / n))
  }

  /** Each size scaled by `k`, the stride of the axis: the parts' widths in elements. */
  function Scaled(s: seq<nat>, k: nat): (r: seq<nat>)
    ensures |r| == |s| && forall j | 0 <= j < |s| :: r[j] == k * s[j]
  {
    seq(|s|, j requires 0 <= j < |s| => k * s[j])
  }

  lemma {:induction false} SumScaled(s: seq<nat>, k: nat)
    ensures Sum(Scaled(s, k)) == k * Sum(s)
    decreases |s|
  {
    if s != [] {
      var init := s[..|s| - 1];
      var last := s[|s| - 1];
      SumScaled(init, k);
      assert Scaled(s, k)[..|s| - 1] == Scaled(init, k);
      assert Sum(Scaled(s, k)) == k * Sum(init) + k * last;
      assert Sum(s) == Sum(init) + last;
      Distribute(k, Sum(init), last);
    }
  }

  /** The parts before part `j` take `k * Sum(s[..j])` elements of each row. */
  lemma {:induction false} SumScaledPrefix(s: seq<nat>, k: nat, j: nat)
    requires j <= |s|
    ensures Sum(Scaled(s, k)[..j]) == k * Sum(s[..j])
  {
    assert Scaled(s, k)[..j] == Scaled(s[..j], k);
    SumScaled(s[..j], k);
  }

  lemma {:induction false} Distribute(k: nat, a: nat, b: nat)
    ensures k * (a + b) == k * a + k * b
  {
  }

  lemma {:induction false} ScaleMonotone(k: nat, a: nat, b: nat)
    requires a <= b
    ensures k * a <= k * b
  {
  }

  /**
   * Output `j` of a split of `input` along `axis` into parts of `sizes`:
   * its shape is the input's with the axis shrunk to `sizes[j]`, its
   * elements are the block of columns after those of the parts before it,
   * and in place its storage is the input's from that part's offset on.
   */
  ghost predicate IsPart(op: Split, input: StorageView, x: StorageView, axis: nat, sizes: seq<nat>, j: nat)
    reads input, x, input.buf, x.buf
    requires input.Valid() && axis < |input.shape| && j < |sizes|
  {
    && x.Valid() && x.shape == input.shape[axis := sizes[j]]
    && x.Elements() == Columns(input.Elements(), Product(input.shape[axis..]),
                               Stride(input.shape, axis) * Sum(sizes[..j]), Stride(input.shape, axis) * sizes[j])
    && (op.noCopy ==> x.buf == input.buf && x.start == input.start + Stride(input.shape, 0) * Sum(sizes[..j]))
  }

  /**
   * `operator()(input, outputs)`: the argument checks, then each output
   * viewing its part of the input (in place) or resized and filled by
   * `Compute` (copying). On failure the outputs are untouched.
   */
  method Apply(op: Split, input: StorageView, outputs: seq<StorageView>) returns (r: Result<()>)
    requires Constructed(op) && input.Valid()
    requires 0 <= NormalizeAxis(op.axis, |input.shape|) < |input.shape|
    requires op.sizes != [] || outputs != []
    requires input !in outputs
    requires forall j, k | 0 <= j < k < |outputs| :: outputs[j] != outputs[k]
    modifies outputs
    ensures input.Elements() == old(input.Elements())
    ensures r.Success? <==> PartSizes(op, input.shape[NormalizeAxis(op.axis, |input.shape|)], |outputs|).Success?
    ensures r.Failure? ==> r.error == PartSizes(op, input.shape[NormalizeAxis(op.axis, |input.shape|)], |outputs|).error
    ensures r.Failure? ==> unchanged(outputs)
    ensures r.Success? ==>
      forall j | 0 <= j < |outputs| ::
        IsPart(op, input, outputs[j], NormalizeAxis(op.axis, |input.shape|),
               PartSizes(op, input.shape[NormalizeAxis(op.axis, |input.shape|)], |outputs|).value, j)
    ensures r.Success? && !op.noCopy ==> forall j | 0 <= j < |outputs| :: fresh(outputs[j].buf)
  {
    var axis := NormalizeAxis(op.axis, |input.shape|);
    var dim := input.shape[axis];
    ghost var checked := PartSizes(op, dim, |outputs|);
    if op.sizes != [] {
      if |op.sizes| != |outputs| {
        return Failure(COUNT_MISMATCH);
      }
      if dim != op.totalSize {
        return Failure(DIM_MISMATCH);
      }
    } else if dim % |outputs| != 0 {
      return Failure(NOT_DIVISIBLE);
    }
    ghost var sizes := checked.value;
    forall j | 0 <= j < |sizes| ensures sizes[j] == SplitSize(op, dim, |outputs|, j) {
    }
    if !op.noCopy {
      CopyParts(op, input, outputs, axis, dim, sizes);
    } else {
      ViewInPlace(op, input, outputs, axis, dim, sizes);
    }
    r := Success(());
  }

  /** What `operator()` does once the checks pass when copying: resize the outputs, then `compute`. */
  method CopyParts(op: Split, input: StorageView, outputs: seq<StorageView>, axis: nat, dim: nat, ghost sizes: seq<nat>)
    requires Constructed(op) && !op.noCopy && input.Valid()
    requires axis == NormalizeAxis(op.axis, |input.shape|) && axis < |input.shape| && dim == input.shape[axis]
    requires |sizes| == |outputs| && Sum(sizes) == dim
    requires op.sizes != [] ==> |op.sizes| == |outputs|
    requires forall j {:trigger SplitSize(op, dim, |outputs|, j)} | 0 <= j < |sizes| :: sizes[j] == SplitSize(op, dim, |outputs|, j)
    requires input !in outputs
    requires forall j, k | 0 <= j < k < |outputs| :: outputs[j] != outputs[k]
    modifies outputs
    ensures input.Elements() == old(input.Elements())
    ensures forall j | 0 <= j < |outputs| :: IsPart(op, input, outputs[j], axis, sizes, j)
    ensures forall j | 0 <= j < |outputs| :: fresh(outputs[j].buf)
  {
    ghost var buffers := ResizeParts(op, input, outputs, axis, dim, sizes);
    FillParts(op, input, outputs, axis, sizes, buffers);
  }

  /** What `operator()` does once the checks pass in place: each output views its part of the input. */
  method ViewInPlace(op: Split, input: StorageView, outputs: seq<StorageView>, axis: nat, dim: nat, ghost sizes: seq<nat>)
    requires Constructed(op) && op.noCopy && input.Valid()
    requires axis == NormalizeAxis(op.axis, |input.shape|) && axis < |input.shape| && dim == input.shape[axis]
    requires |sizes| == |outputs| && Sum(sizes) == dim
    requires op.sizes != [] ==> |op.sizes| == |outputs|
    requires forall j {:trigger SplitSize(op, dim, |outputs|, j)} | 0 <= j < |sizes| :: sizes[j] == SplitSize(op, dim, |outputs|, j)
    requires input !in outputs
    requires forall j, k | 0 <= j < k < |outputs| :: outputs[j] != outputs[k]
    modifies outputs
    ensures input.Elements() == old(input.Elements())
    ensures forall j | 0 <= j < |outputs| :: IsPart(op, input, outputs[j], axis, sizes, j)
  {
    ghost var widths := Scaled(sizes, Stride(input.shape, 0));
    ViewParts(op, input, outputs, dim, sizes, widths);
    InPlaceParts(op, input, outputs, sizes, widths);
  }

  /** Outputs viewing the input's storage from their parts' offsets on are the parts. */
  lemma {:induction false} InPlaceParts(op: Split, input: StorageView, outputs: seq<StorageView>,
                                        sizes: seq<nat>, widths: seq<nat>)
    requires op.noCopy && input.Valid() && |input.shape| > 0
    requires |sizes| == |outputs| && Sum(sizes) == input.shape[0]
    requires widths == Scaled(sizes, Stride(input.shape, 0))
    requires forall j | 0 <= j < |outputs| ::
      outputs[j].buf == input.buf && outputs[j].shape == input.shape[0 := sizes[j]]
      && outputs[j].start == input.start + Sum(widths[..j])
    ensures forall j | 0 <= j < |outputs| :: IsPart(op, input, outputs[j], 0, sizes, j)
  {
    forall j | 0 <= j < |outputs|
      ensures IsPart(op, input, outputs[j], 0, sizes, j)
    {
      InPlacePart(op, input, outputs[j], sizes, widths, j);
    }
  }

  /** `split_size` of output `j` of `n`: its configured size, or an equal share of `dim`. */
  function SplitSize(op: Split, dim: nat, n: nat, j: nat): nat
    requires j < n && (op.sizes != [] ==> j < |op.sizes|)
  {
    if op.sizes == [] then dim / n else op.sizes[j]
  }

  /**
   * The loop of `operator()` over the outputs when copying: each one is
   * resized to the input's shape with the axis dimension of its part, and
   * so gets storage of its own, returned as `buffers`.
   */
  method ResizeParts(op: Split, input: StorageView, outputs: seq<StorageView>, axis: nat, dim: nat, ghost sizes: seq<nat>)
      returns (ghost buffers: seq<array<int>>)
    requires axis < |input.shape| && |sizes| == |outputs|
    requires op.sizes != [] ==> |op.sizes| == |outputs|
    requires forall j {:trigger SplitSize(op, dim, |outputs|, j)} | 0 <= j < |sizes| :: sizes[j] == SplitSize(op, dim, |outputs|, j)
    requires input !in outputs
    requires forall j, k | 0 <= j < k < |outputs| :: outputs[j] != outputs[k]
    modifies outputs
    ensures unchanged(input)
    ensures |buffers| == |outputs|
    ensures forall j | 0 <= j < |outputs| ::
      outputs[j].buf == buffers[j] && outputs[j].shape == input.shape[axis := sizes[j]] && outputs[j].start == 0
    ensures forall j | 0 <= j < |outputs| ::
      fresh(buffers[j]) && buffers[j].Length == Product(input.shape[axis := sizes[j]])
    ensures forall j, k | 0 <= j < k < |outputs| :: buffers[j] != buffers[k]
  {
    var shape0 := input.shape;
    buffers := [];
    var j := 0;
    while j < |outputs|
      invariant 0 <= j <= |outputs| && |buffers| == j
      invariant unchanged(input)
      invariant forall j' | 0 <= j' < j ::
        outputs[j'].buf == buffers[j'] && outputs[j'].shape == shape0[axis := sizes[j']] && outputs[j'].start == 0
      invariant forall j' | 0 <= j' < j ::
        fresh(buffers[j']) && buffers[j'].Length == Product(shape0[axis := sizes[j']])
      invariant forall j', k | 0 <= j' < k < j :: buffers[j'] != buffers[k]
    {
      var splitSize := SplitSize(op, dim, |outputs|, j);
      outputs[j].Resize(shape0[axis := splitSize]);
      buffers := buffers + [outputs[j].buf];
      j := j + 1;
    }
  }

  /**
   * The loop of `operator()` over the outputs in place (along the first
   * axis): each one views the input's storage from its part's offset on,
   * the offsets being the sums of the parts' `widths`.
   */
  method ViewParts(op: Split, input: StorageView, outputs: seq<StorageView>, dim: nat,
                   ghost sizes: seq<nat>, ghost widths: seq<nat>)
    requires input.Valid() && 0 < |input.shape| && dim == input.shape[0]
    requires |sizes| == |outputs| && Sum(sizes) == dim && widths == Scaled(sizes, Stride(input.shape, 0))
    requires op.sizes != [] ==> |op.sizes| == |outputs|
    requires forall j {:trigger SplitSize(op, dim, |outputs|, j)} | 0 <= j < |sizes| :: sizes[j] == SplitSize(op, dim, |outputs|, j)
    requires input !in outputs
    requires forall j, k | 0 <= j < k < |outputs| :: outputs[j] != outputs[k]
    modifies outputs
    ensures unchanged(input)
    ensures forall j | 0 <= j < |outputs| ::
      outputs[j].buf == input.buf && outputs[j].shape == input.shape[0 := sizes[j]]
      && outputs[j].start == input.start + Sum(widths[..j])
  {
    var shape0, base := input.shape, input.start;
    var offset := 0;
    var j := 0;
    while j < |outputs|
      invariant 0 <= j <= |outputs|
      invariant offset == Sum(widths[..j])
      invariant unchanged(input)
      invariant forall j' {:trigger outputs[j']} | 0 <= j' < j ::
        outputs[j'].buf == input.buf && outputs[j'].shape == shape0[0 := sizes[j']]
        && outputs[j'].start == base + Sum(widths[..j'])
    {
      var splitSize := SplitSize(op, dim, |outputs|, j);
      SumPrefixBound(widths, j);
      PartFits(shape0, widths, sizes, j);
      outputs[j].View(input.buf, base + offset, shape0[0 := splitSize]);
      offset := offset + Stride(shape0, 0) * splitSize;
      j := j + 1;
    }
  }

  /** The shapes of the parts: the input's, with the axis dimension of each part. */
  function PartShapes(shape: Shape, axis: nat, sizes: seq<nat>): (r: seq<Shape>)
    requires axis < |shape|
    ensures |r| == |sizes| && forall j | 0 <= j < |sizes| :: r[j] == shape[axis := sizes[j]]
  {
    seq(|sizes|, j requires 0 <= j < |sizes| => shape[axis := sizes[j]])
  }

  /** The copying case of `operator()`: `compute` fills the resized outputs, held in `buffers`, with their parts. */
  method FillParts(op: Split, input: StorageView, outputs: seq<StorageView>, axis: nat,
                   ghost sizes: seq<nat>, ghost buffers: seq<array<int>>)
    requires !op.noCopy
    requires input.Valid() && axis < |input.shape| && axis == NormalizeAxis(op.axis, |input.shape|)
    requires |sizes| == |outputs| == |buffers| && Sum(sizes) == input.shape[axis]
    requires forall j | 0 <= j < |outputs| ::
      outputs[j].buf == buffers[j] && outputs[j].shape == input.shape[axis := sizes[j]] && outputs[j].start == 0
    requires forall j | 0 <= j < |outputs| :: buffers[j].Length == Product(input.shape[axis := sizes[j]]) && buffers[j] != input.buf
    requires forall j, k | 0 <= j < k < |outputs| :: buffers[j] != buffers[k]
    modifies buffers
    ensures forall j | 0 <= j < |outputs| :: IsPart(op, input, outputs[j], axis, sizes, j)
  {
    ghost var widths := Scaled(sizes, Stride(input.shape, axis));
    ghost var shapes := PartShapes(input.shape, axis, sizes);
    ReadyAll(input, sizes, buffers, axis, shapes, widths);
    Compute(op, input, outputs, buffers, shapes, widths);
    forall j | 0 <= j < |outputs|
      ensures IsPart(op, input, outputs[j], axis, sizes, j)
    {
      CopiedPart(op, input, outputs[j], axis, sizes, widths, j);
    }
  }

  /** A resized output holding its block of columns is its part. */
  lemma {:induction false} CopiedPart(op: Split, input: StorageView, x: StorageView, axis: nat,
                                      sizes: seq<nat>, widths: seq<nat>, j: nat)
    requires !op.noCopy && input.Valid() && axis < |input.shape| && j < |sizes|
    requires widths == Scaled(sizes, Stride(input.shape, axis))
    requires x.shape == input.shape[axis := sizes[j]] && x.start == 0 && x.buf.Length == Product(x.shape)
    requires x.buf[..] == Columns(input.Elements(), Product(input.shape[axis..]), Sum(widths[..j]), widths[j])
    ensures IsPart(op, input, x, axis, sizes, j)
  {
    SumScaledPrefix(sizes, Stride(input.shape, axis), j);
    assert x.buf[0..Product(x.shape)] == x.buf[..];
  }

  /** In place, part `j` fits in the input's storage. */
  lemma {:induction false} PartFits(shape: Shape, widths: seq<nat>, sizes: seq<nat>, j: nat)
    requires |shape| > 0 && j < |sizes| && Sum(sizes) == shape[0] && widths == Scaled(sizes, Stride(shape, 0))
    ensures Sum(widths[..j]) + Product(shape[0 := sizes[j]]) <= Product(shape)
  {
    var k := Stride(shape, 0);
    SumScaledPrefix(sizes, k, j);
    ProductFromReplaced(shape, 0, sizes[j]);
    assert shape[0 := sizes[j]][0..] == shape[0 := sizes[j]];
    ProductFrom(shape, 0);
    assert shape[0..] == shape;
    assert Product(shape[0 := sizes[j]]) == sizes[j] * k;
    assert Product(shape) == Sum(sizes) * k;
    SumPrefixBound(sizes, j);
    Distribute(k, Sum(sizes[..j]), sizes[j]);
    ScaleMonotone(k, Sum(sizes[..j + 1]), Sum(sizes));
  }

  /**
   * An output viewing the input's storage from part `j`'s offset on, along
   * the first axis, is its part: one row, a stretch of the input.
   */
  lemma {:induction false} InPlacePart(op: Split, input: StorageView, x: StorageView, sizes: seq<nat>, widths: seq<nat>, j: nat)
    requires op.noCopy && input.Valid() && |input.shape| > 0 && j < |sizes| && Sum(sizes) == input.shape[0]
    requires widths == Scaled(sizes, Stride(input.shape, 0))
    requires x.shape == input.shape[0 := sizes[j]]
    requires x.buf == input.buf && x.start == input.start + Sum(widths[..j])
    ensures IsPart(op, input, x, 0, sizes, j)
  {
    var off := Stride(input.shape, 0) * Sum(sizes[..j]);
    var w := Stride(input.shape, 0) * sizes[j];
    SumScaledPrefix(sizes, Stride(input.shape, 0), j);
    PartFits(input.shape, widths, sizes, j);
    ProductFromReplaced(input.shape, 0, sizes[j]);
    assert x.shape[0..] == x.shape;
    assert input.shape[0..] == input.shape;
    assert Product(x.shape) == w && x.start == input.start + off;
    ViewOfStretch(input, x, off, w);
    ColumnsOneRow(input.Elements(), off, w);
  }

  /**
   * Output `buffer` of shape `shape` can take the block of columns `offset`
   * to `offset + w` of the rows of an input of shape `inShape` held in
   * `src`, cut along `axis`: `w` is the product of its dimensions from the
   * axis on.
   */
  ghost predicate Ready(inShape: Shape, src: array<int>, shape: Shape, buffer: array<int>, axis: nat, offset: nat, w: nat)
  {
    && axis < |inShape| && SameBut(shape, inShape, axis)
    && buffer != src && buffer.Length == Product(shape)
    && w == Product(shape[axis..]) && offset + w <= Product(inShape[axis..])
  }

  /** The resized outputs are ready for their blocks, one after the other along the axis. */
  lemma {:induction false} ReadyAll(input: StorageView, sizes: seq<nat>, buffers: seq<array<int>>, axis: nat,
                                    shapes: seq<Shape>, widths: seq<nat>)
    requires axis < |input.shape| && |buffers| == |sizes| && Sum(sizes) == input.shape[axis]
    requires forall j | 0 <= j < |sizes| :: buffers[j].Length == Product(input.shape[axis := sizes[j]]) && buffers[j] != input.buf
    requires shapes == PartShapes(input.shape, axis, sizes) && widths == Scaled(sizes, Stride(input.shape, axis))
    ensures forall j | 0 <= j < |sizes| :: Ready(input.shape, input.buf, shapes[j], buffers[j], axis, Sum(widths[..j]), widths[j])
  {
    SumScaled(sizes, Stride(input.shape, axis));
    ProductFrom(input.shape, axis);
    forall j | 0 <= j < |sizes|
      ensures Ready(input.shape, input.buf, shapes[j], buffers[j], axis, Sum(widths[..j]), widths[j])
    {
      ProductFromReplaced(input.shape, axis, sizes[j]);
      SumPrefixBound(widths, j);
    }
  }

  /**
   * `compute`: copy each output's block of columns out of the input, row by
   * row, the blocks following one another along the axis. It reads each
   * output's shape, `shapes[j]`, and writes its storage, `buffers[j]`,
   * which the outputs, resized, hold from their first element on;
   * `widths[j]` is the width of output `j`'s rows.
   */
  method Compute(op: Split, input: StorageView, outputs: seq<StorageView>,
                 ghost buffers: seq<array<int>>, ghost shapes: seq<Shape>, ghost widths: seq<nat>)
    requires input.Valid() && 0 <= NormalizeAxis(op.axis, |input.shape|) < |input.shape|
    requires |buffers| == |outputs| == |shapes| == |widths|
    requires forall j | 0 <= j < |outputs| :: outputs[j].buf == buffers[j] && outputs[j].shape == shapes[j]
    requires forall j {:trigger Ready(input.shape, input.buf, shapes[j], buffers[j], NormalizeAxis(op.axis, |input.shape|), Sum(widths[..j]), widths[j])}
      | 0 <= j < |outputs| ::
      Ready(input.shape, input.buf, shapes[j], buffers[j], NormalizeAxis(op.axis, |input.shape|), Sum(widths[..j]), widths[j])
    requires forall j, k | 0 <= j < k < |outputs| :: buffers[j] != buffers[k]
    modifies buffers
    ensures forall j | 0 <= j < |outputs| ::
      buffers[j][..] == Columns(input.Elements(), Product(input.shape[NormalizeAxis(op.axis, |input.shape|)..]), Sum(widths[..j]), widths[j])
  {
    var axis := NormalizeAxis(op.axis, |input.shape|);
    var data := seq(|outputs|, j requires 0 <= j < |outputs| reads outputs => outputs[j].buf);
    var dims := seq(|outputs|, j requires 0 <= j < |outputs| reads outputs => outputs[j].shape);
    assert data == buffers;
    assert dims == shapes;
    ComputeAlong(input, dims, data, axis, widths, Product(input.shape[axis..]));
  }

  /** The loop of `compute` over the outputs' shapes and buffers, along the normalised axis. */
  method ComputeAlong(input: StorageView, shapes: seq<Shape>, buffers: seq<array<int>>, axis: nat, ghost widths: seq<nat>, ghost row: nat)
    requires input.Valid() && axis < |input.shape| && |shapes| == |buffers| == |widths| && row == Product(input.shape[axis..])
    requires forall j {:trigger Ready(input.shape, input.buf, shapes[j], buffers[j], axis, Sum(widths[..j]), widths[j])} | 0 <= j < |shapes| ::
      Ready(input.shape, input.buf, shapes[j], buffers[j], axis, Sum(widths[..j]), widths[j])
    requires forall j, k | 0 <= j < k < |buffers| :: buffers[j] != buffers[k]
    modifies buffers
    ensures forall j | 0 <= j < |buffers| :: buffers[j][..] == Columns(input.Elements(), row, Sum(widths[..j]), widths[j])
  {
    ghost var whole := input.Elements();
    var offset := 0;
    var j := 0;
    while j < |buffers|
      invariant 0 <= j <= |buffers| && offset == Sum(widths[..j])
      invariant input.Elements() == whole
      invariant forall j' | 0 <= j' < j :: buffers[j'][..] == Columns(whole, row, Sum(widths[..j']), widths[j'])
    {
      SumPrefixBound(widths, j);
      var copyDim := CopyPart(input, shapes[j], buffers[j], axis, offset, whole, row, widths[j]);
      offset := offset + copyDim;
      j := j + 1;
    }
  }

  /**
   * One output of `compute`: its `iter_dim` and `copy_dim`, then its rows
   * copied out of the input from column `offset` on.
   */
  method CopyPart(input: StorageView, shape: Shape, buffer: array<int>, axis: nat, offset: nat,
                  ghost whole: seq<int>, ghost row: nat, ghost w: nat) returns (copyDim: nat)
    requires input.Valid() && Ready(input.shape, input.buf, shape, buffer, axis, offset, w)
    requires whole == input.Elements() && row == Product(input.shape[axis..])
    modifies buffer
    ensures copyDim == w && buffer[..] == Columns(whole, row, offset, w)
  {
    var rowLen := input.shape[axis] * Stride(input.shape, axis);
    ProductFrom(input.shape, axis);
    var iterDim;
    iterDim, copyDim := OuterAndBlock(shape, axis);
    assert shape[..axis] == input.shape[..axis];
    ProductSplit(shape, axis);
    ProductSplit(input.shape, axis);
    CopyRowsOut(input, buffer, iterDim, rowLen, offset, copyDim);
    BlockIsColumns(buffer[..], input.Elements(), iterDim, rowLen, offset, copyDim);
  }

  /**
   * The inner loop of `compute`: row `i` of the output gets the `copyDim`
   * elements of row `i` of the input that start at column `offset`.
   */
  method CopyRowsOut(input: StorageView, buffer: array<int>, iterDim: nat, row: nat, offset: nat, copyDim: nat)
    requires input.Valid() && buffer != input.buf
    requires Product(input.shape) == iterDim * row && buffer.Length == iterDim * copyDim
    requires offset + copyDim <= row
    modifies buffer
    ensures Block(buffer[..], input.Elements(), iterDim, row, offset, copyDim)
  {
    var i := 0;
    while i < iterDim
      invariant 0 <= i <= iterDim
      invariant BlockRows(buffer[..], input.Elements(), iterDim, row, offset, copyDim, i)
    {
      ghost var before := buffer[..];
      FlatEnd(i, copyDim, iterDim, copyDim);
      FlatEnd(i, 0, iterDim, copyDim);
      FlatEnd(i, offset + copyDim, iterDim, row);
      FlatEnd(i, offset, iterDim, row);
      CopyOut(input, Flat(i, row, offset), buffer, Flat(i, copyDim, 0), copyDim);
      assert buffer[..][Flat(i, copyDim, 0)..Flat(i, copyDim, copyDim)] == buffer[Flat(i, copyDim, 0)..Flat(i, copyDim, copyDim)];
      PartRowWritten(before, buffer[..], input.Elements(), iterDim, row, offset, copyDim, i);
      i := i + 1;
    }
  }
}
