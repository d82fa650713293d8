/**
 * The `Squeeze` op: drop size-1 dimensions at the configured axes, either
 * reshaping a tensor in place or giving a second view of its storage the
 * squeezed shape.
 */
module SqueezeOp {
  import opened Wrappers
  import opened Tensors

  const NOT_ONE := "can't squeeze dimension greater than 1"

  ghost predicate Ascending(s: seq<nat>) {
    forall k, l | 0 <= k < l < |s| :: s[k] <= s[l]
  }

  /** `x` inserted before the first element of sorted `s` that is not smaller. */
  function Insert(x: nat, s: seq<nat>): (r: seq<nat>)
    ensures multiset(r) == multiset(s) + multiset{x}
  {
    if s == [] || x <= s[0] then
      [x] + s
    else
      assert s == [s[0]] + s[1..];
      var rest := Insert(x, s[1..]);
      assert multiset(rest) == multiset(s[1..]) + multiset{x};
      [s[0]] + rest
  }

  /** Inserting a value no smaller than a bound of `s` keeps the bound. */
  lemma {:induction false} InsertBound(x: nat, s: seq<nat>, b: nat)
    requires b <= x && forall k | 0 <= k < |s| :: b <= s[k]
    ensures forall k | 0 <= k < |Insert(x, s)| :: b <= Insert(x, s)[k]
    decreases |s|
  {
    if s != [] && x > s[0] {
      InsertBound(x, s[1..], b);
    }
  }

  lemma {:induction false} InsertAscending(x: nat, s: seq<nat>)
    requires Ascending(s)
    ensures Ascending(Insert(x, s))
    decreases |s|
  {
    if s != [] && x > s[0] {
      InsertAscending(x, s[1..]);
      InsertBound(x, s[1..], s[0]);
    }
  }

  /** The axes in ascending order, as `std::sort` leaves them. */
  function Sort(s: seq<nat>): (r: seq<nat>)
    ensures Ascending(r) && multiset(r) == multiset(s)
  {
    if s == [] then []
    else
      assert s == s[..|s| - 1] + [s[|s| - 1]];
      InsertAscending(s[|s| - 1], Sort(s[..|s| - 1]));
      Insert(s[|s| - 1], Sort(s[..|s| - 1]))
  }

  /**
   * How many of the sorted `axes` `transform_shape` matches in a shape of
   * rank `rank`: it steps through the positions once, so it matches the
   * axes up to the first one that repeats the one before it or that lies
   * at or beyond the rank; `lo` is the first position not yet passed.
   */
  function MatchCount(axes: seq<nat>, lo: nat, rank: nat): (m: nat)
    ensures m <= |axes|
    ensures forall k | 0 <= k < m :: lo <= axes[k] < rank
    ensures forall k | 0 < k < m :: axes[k - 1] < axes[k]
    ensures m < |axes| ==> axes[m] >= rank || (if m == 0 then axes[0] < lo else axes[m] <= axes[m - 1])
    decreases |axes|
  {
    if axes == [] || axes[0] < lo || axes[0] >= rank then 0
    else
      var m := 1 + MatchCount(axes[1..], axes[0] + 1, rank);
      assert forall k | 0 < k < m :: axes[k] == axes[1..][k - 1];
      m
  }

  /** The positions `transform_shape` squeezes away. */
  ghost function Dropped(axes: seq<nat>, rank: nat): set<nat> {
    set k | 0 <= k < MatchCount(axes, 0, rank) :: axes[k]
  }

  /** The dimensions among the first `i` of `shape` whose positions are not in `drop`, in order. */
  function KeepOutside(shape: Shape, drop: set<nat>, i: nat): Shape
    requires i <= |shape|
  {
    if i == 0 then [] else KeepOutside(shape, drop, i - 1) + (if i - 1 in drop then [] else [shape[i - 1]])
  }

  /** Every position of `shape` in `drop` has a dimension of 1. */
  ghost predicate Squeezable(shape: Shape, drop: set<nat>) {
    forall a | a in drop && a < |shape| :: shape[a] == 1
  }

  /**
   * The loop of `transform_shape` over the positions of `shape`, `j`
   * stepping through the sorted `axes`.
   */
  method SqueezeShape(axes: seq<nat>, shape: Shape) returns (r: Result<Shape>)
    requires Ascending(axes)
    ensures r.Failure? <==> !Squeezable(shape, Dropped(axes, |shape|))
    ensures r.Failure? ==> r.error == NOT_ONE
    ensures r.Success? ==> r.value == KeepOutside(shape, Dropped(axes, |shape|), |shape|)
    ensures r.Success? ==> Product(r.value) == Product(shape)
  {
    var newShape := [];
    var i, j := 0, 0;
    while i < |shape|
      invariant Scanned(axes, shape, i, j, newShape)
    {
      if j < |axes| && i == axes[j] {
        if shape[i] != 1 {
          ScanNotOne(axes, shape, i, j, newShape);
          return Failure(NOT_ONE);
        }
        ScanMatched(axes, shape, i, j, newShape);
        j := j + 1;
      } else {
        ScanPassed(axes, shape, i, j, newShape);
        newShape := newShape + [shape[i]];
      }
      i := i + 1;
    }
    ScanDone(axes, shape, j, newShape);
    r := Success(newShape);
  }

  /** The op, whose `_axes` the constructor sorts and no other member changes. */
  class Squeeze {
    const axes: seq<nat>

    constructor (axes: seq<nat>)
      ensures Ascending(this.axes) && multiset(this.axes) == multiset(axes)
    {
      this.axes := Sort(axes);
    }

    /**
     * `transform_shape`: the shape without the matched axes, or the error
     * if a matched axis has a dimension other than 1.
     */
    method TransformShape(shape: Shape) returns (r: Result<Shape>)
      requires Ascending(axes)
      ensures r.Failure? <==> !Squeezable(shape, Dropped(axes, |shape|))
      ensures r.Failure? ==> r.error == NOT_ONE
      ensures r.Success? ==> r.value == KeepOutside(shape, Dropped(axes, |shape|), |shape|)
      ensures r.Success? ==> Product(r.value) == Product(shape)
    {
      r := SqueezeShape(axes, shape);
    }

    /** `operator()(data)`: `data` itself takes the squeezed shape. */
    method ApplyInPlace(data: StorageView) returns (r: Result<()>)
      requires Ascending(axes) && data.Valid()
      modifies data
      ensures r.Failure? <==> !Squeezable(old(data.shape), Dropped(axes, |old(data.shape)|))
      ensures r.Failure? ==> r.error == NOT_ONE && unchanged(data)
      ensures r.Success? ==> data.shape == KeepOutside(old(data.shape), Dropped(axes, |old(data.shape)|), |old(data.shape)|)
      ensures data.buf == old(data.buf) && data.start == old(data.start) && data.Valid()
    {
      var shape := TransformShape(data.shape);
      if shape.Failure? {
        return Failure(shape.error);
      }
      data.Reshape(shape.value);
      r := Success(());
    }

    /**
     * `operator()(data, squeezed)`: `squeezed` shares `data`'s storage
     * and takes the squeezed shape; `data` is left alone. The shallow copy
     * comes first, so on the error `squeezed` is left sharing `data`'s
     * storage and shape.
     */
    method ApplyTo(data: StorageView, squeezed: StorageView) returns (r: Result<()>)
      requires Ascending(axes) && data.Valid() && data != squeezed
      modifies squeezed
      ensures r.Failure? <==> !Squeezable(data.shape, Dropped(axes, |data.shape|))
      ensures squeezed.buf == data.buf && squeezed.start == data.start && squeezed.Valid()
      ensures r.Failure? ==> r.error == NOT_ONE && squeezed.shape == data.shape
      ensures r.Success? ==> squeezed.shape == KeepOutside(data.shape, Dropped(axes, |data.shape|), |data.shape|)
    {
      squeezed.ShallowCopy(data);
      var shape := TransformShape(data.shape);
      if shape.Failure? {
        return Failure(shape.error);
      }
      squeezed.Reshape(shape.value);
      r := Success(());
    }
  }

  /**
   * The loop of `transform_shape` after the first `i` positions, `j` of
   * the axes matched: those lie before `i` and have dimensions of 1, the
   * next axis, if it is matched at all, is still ahead, and `newShape`
   * holds the dimensions kept so far.
   */
  ghost predicate Scanned(axes: seq<nat>, shape: Shape, i: nat, j: nat, newShape: Shape)
  {
    var m := MatchCount(axes, 0, |shape|);
    && Ascending(axes) && i <= |shape| && j <= m
    && (forall k | 0 <= k < j :: axes[k] < i && shape[axes[k]] == 1)
    && (j < m ==> axes[j] >= i)
    && (j == m && m < |axes| ==> axes[m] >= |shape| || axes[m] < i)
    && newShape == KeepOutside(shape, Dropped(axes, |shape|), i)
  }

  /** Position `i` is the next axis, of dimension 1: it is squeezed away. */
  lemma {:induction false} ScanMatched(axes: seq<nat>, shape: Shape, i: nat, j: nat, newShape: Shape)
    requires Scanned(axes, shape, i, j, newShape) && i < |shape| && j < |axes| && axes[j] == i && shape[i] == 1
    ensures Scanned(axes, shape, i + 1, j + 1, newShape)
  {
    var m := MatchCount(axes, 0, |shape|);
    assert j < m;
    assert i in Dropped(axes, |shape|);
  }

  /** Position `i` is the next axis, of a dimension other than 1: the shape cannot be squeezed. */
  lemma {:induction false} ScanNotOne(axes: seq<nat>, shape: Shape, i: nat, j: nat, newShape: Shape)
    requires Scanned(axes, shape, i, j, newShape) && i < |shape| && j < |axes| && axes[j] == i && shape[i] != 1
    ensures !Squeezable(shape, Dropped(axes, |shape|))
  {
    assert j < MatchCount(axes, 0, |shape|);
    assert i in Dropped(axes, |shape|);
  }

  /** Position `i` is not the next axis: it is kept. */
  lemma {:induction false} ScanPassed(axes: seq<nat>, shape: Shape, i: nat, j: nat, newShape: Shape)
    requires Scanned(axes, shape, i, j, newShape) && i < |shape| && !(j < |axes| && axes[j] == i)
    ensures Scanned(axes, shape, i + 1, j, newShape + [shape[i]])
  {
    var m := MatchCount(axes, 0, |shape|);
    forall k | 0 <= k < m ensures axes[k] != i {
      if k >= j {
        assert axes[j] <= axes[k];
      }
    }
    assert i !in Dropped(axes, |shape|);
  }

  /** All positions passed: every matched axis had a dimension of 1, and `newShape` is the squeezed shape. */
  lemma {:induction false} ScanDone(axes: seq<nat>, shape: Shape, j: nat, newShape: Shape)
    requires Scanned(axes, shape, |shape|, j, newShape)
    ensures Squeezable(shape, Dropped(axes, |shape|))
    ensures newShape == KeepOutside(shape, Dropped(axes, |shape|), |shape|)
    ensures Product(newShape) == Product(shape)
  {
    SqueezeKeepsSize(shape, Dropped(axes, |shape|), |shape|);
    assert shape[..|shape|] == shape;
  }

  /** Only dimensions of 1 are dropped, so the number of elements stays the same. */
  lemma {:induction false} SqueezeKeepsSize(shape: Shape, drop: set<nat>, i: nat)
    requires i <= |shape|
    requires Squeezable(shape, drop)
    ensures Product(KeepOutside(shape, drop, i)) == Product(shape[..i])
  {
    if i > 0 {
      SqueezeKeepsSize(shape, drop, i - 1);
      var before := KeepOutside(shape, drop, i - 1);
      assert shape[..i][..i - 1] == shape[..i - 1];
      if i - 1 in drop {
        assert KeepOutside(shape, drop, i) == before;
      } else {
        var after := before + [shape[i - 1]];
        assert after[..|after| - 1] == before;
      }
    }
    else {
      assert shape[..0] == [];
    }
  }

  ghost predicate Increasing(s: seq<nat>) {
    forall k, l | 0 <= k < l < |s| :: s[k] < s[l]
  }

  /**
   * For sorted axes without repeats, all at or after `lo`, the matched
   * ones are exactly those below the rank.
   */
  lemma {:induction false} MatchesBelowRank(axes: seq<nat>, lo: nat, rank: nat)
    requires Increasing(axes) && forall k | 0 <= k < |axes| :: lo <= axes[k]
    ensures forall k | 0 <= k < |axes| :: k < MatchCount(axes, lo, rank) <==> axes[k] < rank
    decreases |axes|
  {
    if axes != [] && axes[0] < rank {
      var rest := axes[1..];
      MatchesBelowRank(rest, axes[0] + 1, rank);
      forall k | 0 < k < |axes| ensures axes[k] == rest[k - 1] { }
    } else if axes != [] {
      assert forall k | 0 < k < |axes| :: axes[0] < axes[k];
    }
  }

  /**
   * `transform_shape` on sorted axes without repeats squeezes away exactly
   * the listed positions below the rank; axes at or beyond it are passed over.
   */
  lemma {:induction false} DroppedAreListed(axes: seq<nat>, rank: nat)
    requires Increasing(axes)
    ensures forall a :: a in Dropped(axes, rank) <==> a in axes && a < rank
  {
    MatchesBelowRank(axes, 0, rank);
  }

  /**
   * A repeated axis stops the matching: the positions of the axes after
   * the repeat are not squeezed away on their account.
   */
  lemma {:induction false} RepeatStops(axes: seq<nat>, rank: nat, k: nat)
    requires Ascending(axes) && k + 1 < |axes| && axes[k] == axes[k + 1]
    ensures MatchCount(axes, 0, rank) <= k + 1
  {
  }
}
