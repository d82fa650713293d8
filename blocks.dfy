/**
 * Column blocks of a row-major buffer, the common ground of split and
 * concat: viewed as `n` rows of `row` elements, a buffer's columns
 * `off .. off + w` form a block, stored on its own as `n` rows of `w`.
 */
module Blocks {
  import opened Tensors

  /** Shapes that fit: `part` is `n` rows of `w`, `whole` is `n` rows of `row`. */
  ghost predicate Fits(part: seq<int>, whole: seq<int>, n: nat, row: nat, off: nat, w: nat) {
    |part| == n * w && |whole| == n * row && off + w <= row
  }

  /** Column `c` of row `i` of `part` is column `off + c` of row `i` of `whole`. */
  ghost predicate Cell(part: seq<int>, whole: seq<int>, n: nat, row: nat, off: nat, w: nat, i: nat, c: nat)
    requires Fits(part, whole, n, row, off, w) && i < n && c < w
  {
    FlatBound(i, c, n, w);
    FlatBound(i, off + c, n, row);
    part[Flat(i, w, c)] == whole[Flat(i, row, off + c)]
  }

  /** The first `rows` rows of `part` are columns `off .. off + w` of `whole`. */
  ghost predicate BlockRows(part: seq<int>, whole: seq<int>, n: nat, row: nat, off: nat, w: nat, rows: nat) {
    && Fits(part, whole, n, row, off, w) && rows <= n
    && forall i, c | 0 <= i < rows && 0 <= c < w :: Cell(part, whole, n, row, off, w, i, c)
  }

  /** `part[i * w + c] == whole[i * row + off + c]` for every row `i` and column `c < w`. */
  ghost predicate Block(part: seq<int>, whole: seq<int>, n: nat, row: nat, off: nat, w: nat) {
    BlockRows(part, whole, n, row, off, w, n)
  }

  /** Row `i` of the block written into `part`, nothing else touched: one more row done. */
  lemma {:induction false} PartRowWritten(part0: seq<int>, part1: seq<int>, whole: seq<int>,
                                          n: nat, row: nat, off: nat, w: nat, i: nat)
    requires BlockRows(part0, whole, n, row, off, w, i) && i < n
    requires |part1| == |part0|
    requires Flat(i, w, w) <= |part1| && Flat(i, row, off + w) <= |whole|
    requires part1[Flat(i, w, 0)..Flat(i, w, w)] == whole[Flat(i, row, off)..Flat(i, row, off + w)]
    requires forall k | 0 <= k < |part0| && !(Flat(i, w, 0) <= k < Flat(i, w, w)) :: part1[k] == part0[k]
    ensures BlockRows(part1, whole, n, row, off, w, i + 1)
  {
    forall i', c | 0 <= i' < i + 1 && 0 <= c < w
      ensures Cell(part1, whole, n, row, off, w, i', c)
    {
      FlatBound(i', c, n, w);
      FlatBound(i', off + c, n, row);
      var k := Flat(i', w, c);
      if i' < i {
        assert Cell(part0, whole, n, row, off, w, i', c);
        FlatOrder(i', c, i, 0, w);
        assert part1[k] == part0[k];
      } else {
        assert part1[Flat(i, w, 0)..Flat(i, w, w)][c] == part1[k];
      }
    }
  }

  /** Row `i` of the block written into `whole`, nothing else touched: one more row done. */
  lemma {:induction false} WholeRowWritten(part: seq<int>, whole0: seq<int>, whole1: seq<int>,
                                           n: nat, row: nat, off: nat, w: nat, i: nat)
    requires BlockRows(part, whole0, n, row, off, w, i) && i < n
    requires |whole1| == |whole0|
    requires Flat(i, w, w) <= |part| && Flat(i, row, off + w) <= |whole1|
    requires whole1[Flat(i, row, off)..Flat(i, row, off + w)] == part[Flat(i, w, 0)..Flat(i, w, w)]
    requires forall k | 0 <= k < |whole0| && !(Flat(i, row, off) <= k < Flat(i, row, off + w)) :: whole1[k] == whole0[k]
    ensures BlockRows(part, whole1, n, row, off, w, i + 1)
  {
    forall i', c | 0 <= i' < i + 1 && 0 <= c < w
      ensures Cell(part, whole1, n, row, off, w, i', c)
    {
      FlatBound(i', c, n, w);
      FlatBound(i', off + c, n, row);
      var k := Flat(i', row, off + c);
      if i' < i {
        assert Cell(part, whole0, n, row, off, w, i', c);
        FlatOrder(i', off + c, i, off, row);
        assert whole1[k] == whole0[k];
      } else {
        assert whole1[Flat(i, row, off)..Flat(i, row, off + w)][c] == whole1[k];
      }
    }
  }

  /** Outside columns `off .. off + w`, `b` holds what `a` holds. */
  ghost predicate KeptOutside(a: seq<int>, b: seq<int>, n: nat, row: nat, off: nat, w: nat) {
    && |a| == n * row && |b| == |a|
    && forall i, c | 0 <= i < n && 0 <= c < row && !(off <= c < off + w) :: SameCell(a, b, n, row, i, c)
  }

  ghost predicate SameCell(a: seq<int>, b: seq<int>, n: nat, row: nat, i: nat, c: nat)
    requires |a| == n * row && |b| == |a| && i < n && c < row
  {
    FlatBound(i, c, n, row);
    a[Flat(i, row, c)] == b[Flat(i, row, c)]
  }

  /** Writing row `i` of the columns `off .. off + w` keeps everything outside those columns. */
  lemma {:induction false} OutsideRowWritten(a: seq<int>, b0: seq<int>, b1: seq<int>,
                                             n: nat, row: nat, off: nat, w: nat, i: nat)
    requires KeptOutside(a, b0, n, row, off, w) && off + w <= row && i < n
    requires |b1| == |b0|
    requires forall k | 0 <= k < |b0| && !(Flat(i, row, off) <= k < Flat(i, row, off + w)) :: b1[k] == b0[k]
    ensures KeptOutside(a, b1, n, row, off, w)
  {
    forall i', c | 0 <= i' < n && 0 <= c < row && !(off <= c < off + w)
      ensures SameCell(a, b1, n, row, i', c)
    {
      FlatBound(i', c, n, row);
      var k := Flat(i', row, c);
      assert SameCell(a, b0, n, row, i', c);
      if Flat(i, row, off) <= k < Flat(i, row, off + w) {
        FlatInjective(i', c, i, off + (k - Flat(i, row, off)), row);
        assert false;
      }
      assert b1[k] == b0[k];
    }
  }

  /**
   * Columns `off .. off + w` of every row of `whole` (rows of `row`
   * elements), the rows one after the other: the block as stored on its own.
   */
  ghost function Columns(whole: seq<int>, row: nat, off: nat, w: nat): seq<int>
    decreases |whole|
  {
    if 0 < row <= |whole| && off + w <= row then whole[off..off + w] + Columns(whole[row..], row, off, w) else []
  }

  /** With a single row, the block is one stretch of it. */
  lemma {:induction false} ColumnsOneRow(whole: seq<int>, off: nat, w: nat)
    requires off + w <= |whole|
    ensures Columns(whole, |whole|, off, w) == whole[off..off + w]
  {
    if whole != [] {
      assert Columns(whole[|whole|..], |whole|, off, w) == [];
    }
  }

  lemma {:induction false} ColumnsLength(whole: seq<int>, n: nat, row: nat, off: nat, w: nat)
    requires |whole| == n * row && off + w <= row
    ensures |Columns(whole, row, off, w)| == n * w
    decreases n
  {
    if n > 0 && row > 0 {
      assert |whole[row..]| == (n - 1) * row;
      ColumnsLength(whole[row..], n - 1, row, off, w);
      assert n * w == w + (n - 1) * w;
    }
  }

  /** Column `c` of row `i` of the block is column `off + c` of row `i` of `whole`. */
  lemma {:induction false} ColumnsCell(whole: seq<int>, n: nat, row: nat, off: nat, w: nat, i: nat, c: nat)
    requires |whole| == n * row && off + w <= row && i < n && c < w
    ensures 0 <= Flat(i, w, c) < |Columns(whole, row, off, w)|
    ensures 0 <= Flat(i, row, off + c) < |whole|
    ensures Columns(whole, row, off, w)[Flat(i, w, c)] == whole[Flat(i, row, off + c)]
    decreases i
  {
    ColumnsLength(whole, n, row, off, w);
    FlatBound(i, c, n, w);
    FlatBound(i, off + c, n, row);
    var rest := whole[row..];
    var first := whole[off..off + w];
    var cols := Columns(rest, row, off, w);
    assert Columns(whole, row, off, w) == first + cols;
    if i > 0 {
      RowsAfterFirst(|whole|, n, row);
      ColumnsCell(rest, n - 1, row, off, w, i - 1, c);
      FlatNext(i - 1, w, c);
      FlatNext(i - 1, row, off + c);
      var k := Flat(i - 1, w, c);
      assert (first + cols)[w + k] == cols[k];
      assert cols[k] == rest[Flat(i - 1, row, off + c)];
    }
  }

  /** For a buffer of `n` rows of `w`, being the block and being its `Columns` are the same. */
  lemma {:induction false} BlockIsColumns(part: seq<int>, whole: seq<int>, n: nat, row: nat, off: nat, w: nat)
    requires |part| == n * w && |whole| == n * row && off + w <= row
    ensures Block(part, whole, n, row, off, w) <==> part == Columns(whole, row, off, w)
  {
    var cols := Columns(whole, row, off, w);
    ColumnsLength(whole, n, row, off, w);
    if Block(part, whole, n, row, off, w) {
      forall p | 0 <= p < |part| ensures part[p] == cols[p] {
        var i, c := FlatCover(p, n, w);
        assert Cell(part, whole, n, row, off, w, i, c);
        ColumnsCell(whole, n, row, off, w, i, c);
      }
    }
    if part == cols {
      forall i, c | 0 <= i < n && 0 <= c < w
        ensures Cell(part, whole, n, row, off, w, i, c)
      {
        ColumnsCell(whole, n, row, off, w, i, c);
      }
    }
  }

  /** What stays outside columns `off .. off + w` keeps every block of other columns. */
  lemma {:induction false} ColumnsKept(a: seq<int>, b: seq<int>, n: nat, row: nat, off: nat, w: nat, off': nat, w': nat)
    requires KeptOutside(a, b, n, row, off, w) && off' + w' <= row
    requires off' + w' <= off || off + w <= off'
    ensures Columns(b, row, off', w') == Columns(a, row, off', w')
  {
    var ca, cb := Columns(a, row, off', w'), Columns(b, row, off', w');
    ColumnsLength(a, n, row, off', w');
    ColumnsLength(b, n, row, off', w');
    forall p | 0 <= p < |ca| ensures ca[p] == cb[p] {
      var i, c := FlatCover(p, n, w');
      ColumnsCell(a, n, row, off', w', i, c);
      ColumnsCell(b, n, row, off', w', i, c);
      assert SameCell(a, b, n, row, i, off' + c);
    }
  }

  /** The block that owns column `o`: the columns of the blocks are consecutive. */
  lemma {:induction false} Owner(widths: seq<nat>, o: nat) returns (j: nat)
    requires o < Sum(widths)
    ensures j < |widths| && Sum(widths[..j]) <= o < Sum(widths[..j]) + widths[j]
    decreases |widths|
  {
    var init := widths[..|widths| - 1];
    if o < Sum(init) {
      j := Owner(init, o);
      assert init[..j] == widths[..j];
    } else {
      j := |widths| - 1;
      assert widths[..j] == init;
    }
  }

  /** No column belongs to two blocks. */
  lemma {:induction false} OwnerUnique(widths: seq<nat>, o: nat, j1: nat, j2: nat)
    requires j1 < |widths| && Sum(widths[..j1]) <= o < Sum(widths[..j1]) + widths[j1]
    requires j2 < |widths| && Sum(widths[..j2]) <= o < Sum(widths[..j2]) + widths[j2]
    ensures j1 == j2
  {
    if j1 < j2 {
      PrefixSumMonotone(widths, j1 + 1, j2);
      SumPrefixBound(widths, j1);
    } else if j2 < j1 {
      PrefixSumMonotone(widths, j2 + 1, j1);
      SumPrefixBound(widths, j2);
    }
  }

  lemma {:induction false} PrefixSumMonotone(s: seq<nat>, a: nat, b: nat)
    requires a <= b <= |s|
    ensures Sum(s[..a]) <= Sum(s[..b])
    decreases b - a
  {
    if a < b {
      PrefixSumMonotone(s, a, b - 1);
      SumPrefixBound(s[..b], b - 1);
      assert s[..b][..b - 1] == s[..b - 1];
    }
  }

  /**
   * Blocks side by side that fill the whole row determine the whole: two
   * buffers of which the same parts are the consecutive column blocks are
   * equal.
   */
  lemma {:induction false} BlocksDetermine(parts: seq<seq<int>>, widths: seq<nat>, a: seq<int>, b: seq<int>,
                                           n: nat, row: nat)
    requires |parts| == |widths| && Sum(widths) == row
    requires |a| == n * row && |b| == n * row
    requires forall j | 0 <= j < |parts| :: Block(parts[j], a, n, row, Sum(widths[..j]), widths[j])
    requires forall j | 0 <= j < |parts| :: Block(parts[j], b, n, row, Sum(widths[..j]), widths[j])
    ensures a == b
  {
    forall p | 0 <= p < |a| ensures a[p] == b[p] {
      var i, o := FlatCover(p, n, row);
      var j := Owner(widths, o);
      var off := Sum(widths[..j]);
      var c := o - off;
      assert Block(parts[j], a, n, row, off, widths[j]);
      assert Block(parts[j], b, n, row, off, widths[j]);
      assert Cell(parts[j], a, n, row, off, widths[j], i, c);
      assert Cell(parts[j], b, n, row, off, widths[j], i, c);
    }
  }

  /**
   * Two buffers of `n` rows whose blocks of consecutive columns, filling
   * the row, are the same, are the same.
   */
  lemma {:induction false} ColumnsDetermine(widths: seq<nat>, a: seq<int>, b: seq<int>, n: nat, row: nat)
    requires Sum(widths) == row && |a| == n * row && |b| == n * row
    requires forall j | 0 <= j < |widths| ::
      Columns(a, row, Sum(widths[..j]), widths[j]) == Columns(b, row, Sum(widths[..j]), widths[j])
    ensures a == b
  {
    var parts := seq(|widths|, j requires 0 <= j < |widths| => Columns(a, row, Sum(widths[..j]), widths[j]));
    forall j | 0 <= j < |widths|
      ensures Block(parts[j], a, n, row, Sum(widths[..j]), widths[j])
      ensures Block(parts[j], b, n, row, Sum(widths[..j]), widths[j])
    {
      SumPrefixBound(widths, j);
      ColumnsLength(a, n, row, Sum(widths[..j]), widths[j]);
      BlockIsColumns(parts[j], a, n, row, Sum(widths[..j]), widths[j]);
      BlockIsColumns(parts[j], b, n, row, Sum(widths[..j]), widths[j]);
    }
    BlocksDetermine(parts, widths, a, b, n, row);
  }
}
