/**
 * What a successful `LayerSpec.quantize` leaves in every layer of the tree:
 * the owner of weight-named leaves holds, under `weight` and `weight_scale`,
 * the pair computed from the last of them in the snapshot; each leaf of the
 * snapshot keeps its slot (scaled in place when it was quantized), each
 * nested layer or list holds the result of the same pass one scope down, and
 * no other name appears.
 */
module QuantizePass {
  import opened Wrappers
  import opened ModelSpec

  predicate Branch(v: Value) {
    v.Node? || v.List?
  }

  /** The slot `n` of the live list holds a nested layer or list, so `WriteBack` stores into it. */
  predicate BranchAt(attrs: seq<Attr>, n: string) {
    Lookup(attrs, n).Some? && Branch(Lookup(attrs, n).value)
  }

  /** An attribute the callback sees whose scoped name contains "weight". */
  predicate WeightLeaf(scope: string, a: Attr) {
    !Branch(a.value) && Contains(JoinScope(scope, a.name), "weight")
  }

  predicate NoWeightLeaf(snap: seq<Attr>, scope: string) {
    forall k | 0 <= k < |snap| :: !WeightLeaf(scope, snap[k])
  }

  /** `snap[m]` is the last weight-named leaf of the snapshot. */
  predicate LastWeightLeaf(snap: seq<Attr>, scope: string, m: int) {
    0 <= m < |snap| && WeightLeaf(scope, snap[m]) &&
    forall k | m < k < |snap| :: !WeightLeaf(scope, snap[k])
  }

  /** The names `_quantize` writes to in a layer with weight-named leaves are not touched otherwise. */
  predicate Spared(snap: seq<Attr>, scope: string, n: string) {
    (n != "weight" && n != "weight_scale") || NoWeightLeaf(snap, scope)
  }

  /** The owner holds the quantized array and its scale computed from `a`. */
  predicate Weights(num: Numerics, mode: string, attrs: seq<Attr>, a: Array)
    requires Quantizable(mode, Tensor(a))
  {
    && Lookup(attrs, "weight") == Some(Tensor(Quantized(num, mode, a).0))
    && Lookup(attrs, "weight_scale") == Some(Tensor(Quantized(num, mode, a).1))
  }

  /**
   * The value an attribute of the snapshot has after the pass, when nothing
   * else was written to its slot: a quantized leaf's array scaled in place
   * (a numpy scalar is rebound, not changed), a nested layer or list visited
   * one scope down, anything else as it was.
   */
  function After(num: Numerics, mode: string, scope: string, a: Attr): Value {
    var st, rw := QuantizeStepFn(mode), QuantizeCallback(num, mode);
    match a.value
    case Node(child) =>
      var r := VisitLayer(child, JoinScope(scope, a.name), (), st, rw);
      if r.Success? then Node(r.value.1) else a.value
    case List(items) =>
      var r := VisitList(items, a.name, 0, scope, (), st, rw);
      if r.Success? then List(r.value.1) else a.value
    case Tensor(arr) =>
      if Contains(JoinScope(scope, a.name), "weight") && Quantizable(mode, a.value) && !arr.scalar
      then Tensor(ScaledInPlace(num, mode, arr))
      else a.value
    case _ => a.value
  }

  // Facts about names

  lemma {:induction false} ContainsInfix(p: string, sub: string, q: string)
    ensures Contains(p + sub + q, sub)
    decreases |p|
  {
    if p == [] {
      assert (p + sub + q)[..|sub|] == sub;
    } else {
      assert (p + sub + q)[1..] == p[1..] + sub + q;
      ContainsInfix(p[1..], sub, q);
    }
  }

  /** A leaf stored under `weight` or `weight_scale` is always weight-named. */
  lemma {:induction false} WeightNamesAreWeighty(scope: string)
    ensures Contains(JoinScope(scope, "weight"), "weight")
    ensures Contains(JoinScope(scope, "weight_scale"), "weight")
  {
    var p := if scope == "" then "" else scope + "/";
    assert JoinScope(scope, "weight") == p + "weight" + "";
    assert JoinScope(scope, "weight_scale") == p + "weight" + "_scale";
    ContainsInfix(p, "weight", "");
    ContainsInfix(p, "weight", "_scale");
  }

  lemma {:induction false} LookupMissing(attrs: seq<Attr>, n: string)
    requires n !in Names(attrs)
    ensures Lookup(attrs, n) == None
  {
    if attrs != [] {
      LookupMissing(attrs[1..], n);
    }
  }

  /** In a well-named list every attribute is found under its own name. */
  lemma {:induction false} WellNamedLookup(attrs: seq<Attr>, k: nat)
    requires WellNamedAttrs(attrs) && k < |attrs|
    ensures Lookup(attrs, attrs[k].name) == Some(attrs[k].value)
  {
    if k > 0 {
      WellNamedLookup(attrs[1..], k - 1);
      NameIn(attrs[1..], k - 1);
    }
  }

  lemma {:induction false} NameIn(attrs: seq<Attr>, k: nat)
    requires k < |attrs|
    ensures attrs[k].name in Names(attrs)
  {
    if k > 0 {
      NameIn(attrs[1..], k - 1);
    }
  }

  lemma {:induction false} NotNamed(attrs: seq<Attr>, n: string)
    requires n !in Names(attrs)
    ensures forall k | 0 <= k < |attrs| :: attrs[k].name != n
  {
    if attrs != [] {
      NotNamed(attrs[1..], n);
      assert forall k | 1 <= k < |attrs| :: attrs[k] == attrs[1..][k - 1];
    }
  }

  // One attribute of the snapshot

  /**
   * Visiting the first attribute of the snapshot: the pass goes on from
   * `next`, which differs from `cur` only in the attribute's own slot and, for
   * a weight-named leaf, in `weight` and `weight_scale`.
   */
  lemma {:induction false} QuantizeHead(num: Numerics, mode: string, snap: seq<Attr>, cur: seq<Attr>, scope: string)
      returns (next: seq<Attr>)
    requires snap != [] && '/' !in snap[0].name
    requires VisitAttrs(snap, cur, scope, (), QuantizeStepFn(mode), QuantizeCallback(num, mode)).Success?
    ensures VisitAttrs(snap[1..], next, scope, (), QuantizeStepFn(mode), QuantizeCallback(num, mode))
         == VisitAttrs(snap, cur, scope, (), QuantizeStepFn(mode), QuantizeCallback(num, mode))
    ensures forall n | (n != snap[0].name || (Branch(snap[0].value) && !BranchAt(cur, n))) &&
                       (!WeightLeaf(scope, snap[0]) || (n != "weight" && n != "weight_scale")) ::
              Lookup(next, n) == Lookup(cur, n)
    ensures WeightLeaf(scope, snap[0]) ==>
              Quantizable(mode, snap[0].value) && Weights(num, mode, next, snap[0].value.arr)
    ensures (!WeightLeaf(scope, snap[0]) || (snap[0].name != "weight" && snap[0].name != "weight_scale")) &&
            Lookup(cur, snap[0].name) == Some(snap[0].value) ==>
              Lookup(next, snap[0].name) == Some(After(num, mode, scope, snap[0]))
  {
    var st, rw := QuantizeStepFn(mode), QuantizeCallback(num, mode);
    var a := snap[0];
    match a.value
    case Node(child) =>
      var r := VisitLayer(child, JoinScope(scope, a.name), (), st, rw);
      next := WriteBack(cur, a.name, Node(r.value.1));
      assert r.value.0 == ();
      SetAttrSpec(cur, a.name, Node(r.value.1));
    case List(items) =>
      var r := VisitList(items, a.name, 0, scope, (), st, rw);
      next := WriteBack(cur, a.name, List(r.value.1));
      assert r.value.0 == ();
      SetAttrSpec(cur, a.name, List(r.value.1));
    case _ =>
      var name := JoinScope(scope, a.name);
      next := QuantizeRewrite(num, mode, cur, name, a.value);
      assert rw(cur, name, a.value) == next;
      assert st((), name, a.value) == Success(());
      if Contains(name, "weight") {
        SplitJoin(scope, a.name);
        QuantizeRewriteSpec(num, mode, cur, name, a.value);
      }
  }

  // The rest of the snapshot

  /** A slot that no later step writes keeps what it holds. */
  lemma {:induction false} QuantizeKeeps(num: Numerics, mode: string, snap: seq<Attr>, cur: seq<Attr>, scope: string, n: string)
    requires WellNamedAttrs(snap)
    requires VisitAttrs(snap, cur, scope, (), QuantizeStepFn(mode), QuantizeCallback(num, mode)).Success?
    requires Spared(snap, scope, n)
    requires forall k | 0 <= k < |snap| && snap[k].name == n :: Branch(snap[k].value) && !BranchAt(cur, n)
    ensures Lookup(VisitAttrs(snap, cur, scope, (), QuantizeStepFn(mode), QuantizeCallback(num, mode)).value.1, n)
         == Lookup(cur, n)
    decreases |snap|
  {
    if snap != [] {
      var next := QuantizeHead(num, mode, snap, cur, scope);
      assert Lookup(next, n) == Lookup(cur, n) by {
        if snap[0].name == n {
          assert Branch(snap[0].value);
        }
        if WeightLeaf(scope, snap[0]) {
          assert !NoWeightLeaf(snap, scope);
        }
      }
      var rest := snap[1..];
      assert Spared(rest, scope, n) by {
        if NoWeightLeaf(snap, scope) {
          forall k | 0 <= k < |rest| ensures !WeightLeaf(scope, rest[k]) {
            assert rest[k] == snap[k + 1];
          }
        }
      }
      forall k | 0 <= k < |rest| && rest[k].name == n ensures Branch(rest[k].value) && !BranchAt(next, n) {
        assert rest[k] == snap[k + 1];
      }
      QuantizeKeeps(num, mode, rest, next, scope, n);
    }
  }

  /** The last weight-named leaf decides `weight` and `weight_scale`. */
  lemma {:induction false} QuantizeLastWeight(num: Numerics, mode: string, snap: seq<Attr>, cur: seq<Attr>, scope: string, m: int)
    requires WellNamedAttrs(snap)
    requires VisitAttrs(snap, cur, scope, (), QuantizeStepFn(mode), QuantizeCallback(num, mode)).Success?
    requires LastWeightLeaf(snap, scope, m)
    ensures Quantizable(mode, snap[m].value)
    ensures Weights(num, mode, VisitAttrs(snap, cur, scope, (), QuantizeStepFn(mode), QuantizeCallback(num, mode)).value.1,
                    snap[m].value.arr)
    decreases |snap|
  {
    var next := QuantizeHead(num, mode, snap, cur, scope);
    var rest := snap[1..];
    if m == 0 {
      assert NoWeightLeaf(rest, scope) by {
        forall k | 0 <= k < |rest| ensures !WeightLeaf(scope, rest[k]) {
          assert rest[k] == snap[k + 1];
        }
      }
      WeightNamesAreWeighty(scope);
      forall k | 0 <= k < |rest| && (rest[k].name == "weight" || rest[k].name == "weight_scale")
        ensures Branch(rest[k].value) && !BranchAt(next, rest[k].name)
      {
        assert !WeightLeaf(scope, rest[k]);
      }
      QuantizeKeeps(num, mode, rest, next, scope, "weight");
      QuantizeKeeps(num, mode, rest, next, scope, "weight_scale");
    } else {
      assert LastWeightLeaf(rest, scope, m - 1) by {
        forall k | m - 1 < k < |rest| ensures !WeightLeaf(scope, rest[k]) {
          assert rest[k] == snap[k + 1];
        }
      }
      QuantizeLastWeight(num, mode, rest, next, scope, m - 1);
    }
  }

  /** A successful pass met only quantizable weight-named leaves. */
  lemma {:induction false} QuantizeLeafQuantizable(num: Numerics, mode: string, snap: seq<Attr>, cur: seq<Attr>, scope: string, k: nat)
    requires WellNamedAttrs(snap) && k < |snap| && WeightLeaf(scope, snap[k])
    requires VisitAttrs(snap, cur, scope, (), QuantizeStepFn(mode), QuantizeCallback(num, mode)).Success?
    ensures Quantizable(mode, snap[k].value)
    decreases |snap|
  {
    var next := QuantizeHead(num, mode, snap, cur, scope);
    if k > 0 {
      assert snap[k] == snap[1..][k - 1];
      QuantizeLeafQuantizable(num, mode, snap[1..], next, scope, k - 1);
    }
  }

  /** An attribute of the snapshot whose slot nothing else writes ends up as `After` says. */
  lemma {:induction false} QuantizeSlot(num: Numerics, mode: string, snap: seq<Attr>, cur: seq<Attr>, scope: string, k: nat)
    requires WellNamedAttrs(snap) && k < |snap|
    requires VisitAttrs(snap, cur, scope, (), QuantizeStepFn(mode), QuantizeCallback(num, mode)).Success?
    requires Spared(snap, scope, snap[k].name)
    requires Lookup(cur, snap[k].name) == Some(snap[k].value)
    ensures Lookup(VisitAttrs(snap, cur, scope, (), QuantizeStepFn(mode), QuantizeCallback(num, mode)).value.1, snap[k].name)
         == Some(After(num, mode, scope, snap[k]))
    decreases |snap|
  {
    var next := QuantizeHead(num, mode, snap, cur, scope);
    var rest := snap[1..];
    var n := snap[k].name;
    assert Spared(rest, scope, n) by {
      if NoWeightLeaf(snap, scope) {
        forall j | 0 <= j < |rest| ensures !WeightLeaf(scope, rest[j]) {
          assert rest[j] == snap[j + 1];
        }
      }
    }
    if WeightLeaf(scope, snap[0]) {
      assert !NoWeightLeaf(snap, scope);
    }
    if k == 0 {
      NotNamed(rest, n);
      QuantizeKeeps(num, mode, rest, next, scope, n);
    } else {
      NameIn(rest, k - 1);
      assert snap[k] == rest[k - 1];
      QuantizeSlot(num, mode, rest, next, scope, k - 1);
    }
  }

  // Whole layers

  /**
   * A successful pass over a well-named layer at `scope`: when some leaf of
   * the layer is weight-named, every such leaf was quantizable and `weight`
   * and `weight_scale` hold the pair computed from the last of them in the
   * snapshot; every attribute of the snapshot whose name is not one of those
   * two (or every attribute, when no leaf is weight-named) holds its `After`
   * value, which for a nested layer or list is the same pass one scope down;
   * no name outside the snapshot appears except `weight` and `weight_scale`.
   */
  lemma {:induction false} QuantizeLayerSpec(num: Numerics, mode: string, l: Layer, scope: string)
    requires WellNamed(l)
    requires VisitLayer(l, scope, (), QuantizeStepFn(mode), QuantizeCallback(num, mode)).Success?
    ensures var r := VisitLayer(l, scope, (), QuantizeStepFn(mode), QuantizeCallback(num, mode)).value.1;
      && r.className == l.className && r.revision == l.revision
      && (forall k | 0 <= k < |l.attrs| && WeightLeaf(scope, l.attrs[k]) :: Quantizable(mode, l.attrs[k].value))
      && (forall m | LastWeightLeaf(l.attrs, scope, m) ::
            Quantizable(mode, l.attrs[m].value) && Weights(num, mode, r.attrs, l.attrs[m].value.arr))
      && (forall k | 0 <= k < |l.attrs| && Spared(l.attrs, scope, l.attrs[k].name) ::
            Lookup(r.attrs, l.attrs[k].name) == Some(After(num, mode, scope, l.attrs[k])))
      && (forall n | n !in Names(l.attrs) && Spared(l.attrs, scope, n) :: Lookup(r.attrs, n) == None)
  {
    var snap := l.attrs;
    var st, rw := QuantizeStepFn(mode), QuantizeCallback(num, mode);
    var r := VisitLayer(l, scope, (), st, rw).value.1;
    forall k | 0 <= k < |snap| && WeightLeaf(scope, snap[k]) ensures Quantizable(mode, snap[k].value) {
      QuantizeLeafQuantizable(num, mode, snap, snap, scope, k);
    }
    forall m | LastWeightLeaf(snap, scope, m)
      ensures Quantizable(mode, snap[m].value) && Weights(num, mode, r.attrs, snap[m].value.arr)
    {
      QuantizeLastWeight(num, mode, snap, snap, scope, m);
    }
    forall k | 0 <= k < |snap| && Spared(snap, scope, snap[k].name)
      ensures Lookup(r.attrs, snap[k].name) == Some(After(num, mode, scope, snap[k]))
    {
      WellNamedLookup(snap, k);
      QuantizeSlot(num, mode, snap, snap, scope, k);
    }
    forall n | n !in Names(snap) && Spared(snap, scope, n) ensures Lookup(r.attrs, n) == None {
      NotNamed(snap, n);
      LookupMissing(snap, n);
      QuantizeKeeps(num, mode, snap, snap, scope, n);
    }
  }
}
