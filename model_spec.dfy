/**
 * The model-specification tree of the Python converter (`LayerSpec`): a layer
 * owns named attributes, each a nested layer, a list of layers, or a leaf — an
 * array, the sentinel string "optional", or None. One generic visitor walks the
 * tree; validation, variable collection and quantization are callbacks of it.
 */
module ModelSpec {
  import opened Wrappers
  import opened Bytes

  /** The sentinel marking an attribute as legitimately not provided. */
  const OPTIONAL: string := "optional"

  datatype DType = Float16 | Float32 | Float64 | Int8 | Int16 | Int32

  /** `dtype.itemsize`: bytes per element. */
  function ItemSize(d: DType): (r: nat)
    ensures 1 <= r <= 8
  {
    match d
    case Float16 => 2
    case Float32 => 4
    case Float64 => 8
    case Int8 => 1
    case Int16 => 2
    case Int32 => 4
  }

  predicate IsFloat(d: DType) {
    d == Float16 || d == Float32 || d == Float64
  }

  /**
   * A numpy value: element type, shape and raw row-major bytes. `scalar` tells
   * a numpy scalar (such as the int16 scale) from an `np.ndarray`.
   */
  datatype Array = Array(dtype: DType, shape: seq<nat>, data: seq<byte>, scalar: bool)

  /** `size`: the number of elements, the product of the dimensions. */
  function Size(shape: seq<nat>): nat {
    if shape == [] then 1 else shape[0] * Size(shape[1..])
  }

  /** The raw bytes match the shape and dtype (`tobytes()` of an array). */
  predicate Consistent(a: Array) {
    |a.data| == Size(a.shape) * ItemSize(a.dtype)
  }

  datatype Value =
    | Tensor(arr: Array)
    | Optional            // the string OPTIONAL
    | Missing             // None: required but not set
    | Node(layer: Layer)
    | List(items: seq<Layer>)

  datatype Attr = Attr(name: string, value: Value)

  /** A `LayerSpec` instance: its class name, its `revision` and its `__dict__` in insertion order. */
  datatype Layer = Layer(className: string, revision: int, attrs: seq<Attr>)

  // ---------------------------------------------------------------------
  // Scoped names

  /** `_join_scope`. */
  function JoinScope(scope: string, name: string): (r: string)
  {
    if scope == "" then name else scope + "/" + name
  }

  /** `_split_scope`: Python's `str.split("/")`. */
  function SplitScope(s: string): (r: seq<string>)
    ensures |r| >= 1
  {
    if s == [] then [""]
    else
      var rest := SplitScope(s[1..]);
      if s[0] == '/' then [""] + rest else [[s[0]] + rest[0]] + rest[1..]
  }

  /** The last segment of a scoped name, `_split_scope(name)[-1]`. */
  function LastSegment(s: string): string {
    var parts := SplitScope(s);
    parts[|parts| - 1]
  }

  lemma {:induction false} SplitPlain(n: string)
    requires '/' !in n
    ensures SplitScope(n) == [n]
  {
    if n != [] {
      SplitPlain(n[1..]);
      assert [n[0]] + n[1..] == n;
    }
  }

  lemma {:induction false} SplitAppend(scope: string, n: string)
    requires '/' !in n
    ensures SplitScope(scope + "/" + n) == SplitScope(scope) + [n]
  {
    if scope == [] {
      assert scope + "/" + n == "/" + n;
      assert ("/" + n)[1..] == n;
      SplitPlain(n);
    } else {
      assert (scope + "/" + n)[1..] == scope[1..] + "/" + n;
      SplitAppend(scope[1..], n);
    }
  }

  /** Splitting a joined name gives back the scope's segments followed by the name. */
  lemma {:induction false} SplitJoin(scope: string, n: string)
    requires '/' !in n
    ensures SplitScope(JoinScope(scope, n)) == (if scope == "" then [n] else SplitScope(scope) + [n])
    ensures LastSegment(JoinScope(scope, n)) == n
  {
    if scope == "" { SplitPlain(n); } else { SplitAppend(scope, n); }
  }

  function Digit(d: nat): char
    requires d < 10
  {
    ('0' as int + d) as char
  }

  /** `"%d" % i` for a list index. */
  function Decimal(i: nat): (r: string)
    ensures |r| >= 1 && forall k | 0 <= k < |r| :: '0' <= r[k] <= '9'
  {
    if i < 10 then [Digit(i)] else Decimal(i / 10) + [Digit(i % 10)]
  }

  function ParseDecimal(s: string): nat
  {
    if s == [] then 0
    else
      var d := s[|s| - 1];
      10 * ParseDecimal(s[..|s| - 1]) + (if '0' <= d <= '9' then d as int - '0' as int else 0)
  }

  /** The decimal index in a list element's scope segment reads back as the index. */
  lemma {:induction false} DecimalRoundTrip(i: nat)
    ensures ParseDecimal(Decimal(i)) == i
  {
    var s := Decimal(i);
    if i >= 10 {
      assert s[..|s| - 1] == Decimal(i / 10);
      DecimalRoundTrip(i / 10);
    } else {
      assert s[..|s| - 1] == [];
    }
  }

  /** The scope of element `i` of the list attribute `name`: segment `name_i`. */
  function ElementScope(scope: string, name: string, i: nat): string {
    JoinScope(scope, name + "_" + Decimal(i))
  }

  // ---------------------------------------------------------------------
  // The visitor's trace: which leaves the callback sees, in which order

  /** One callback call `fn(spec, _join_scope(scope, name), value)`: the owner's scope, the attribute. */
  datatype Visit = Visit(scope: string, name: string, value: Value) {
    function ScopedName(): string {
      JoinScope(scope, name)
    }
  }

  function Trace(l: Layer, scope: string): seq<Visit>
    decreases l, 1
  {
    TraceAttrs(l.attrs, scope)
  }

  function TraceAttrs(attrs: seq<Attr>, scope: string): seq<Visit>
    decreases attrs, 0
  {
    if attrs == [] then []
    else
      var a := attrs[0];
      var here :=
        match a.value
        case Node(child) => Trace(child, JoinScope(scope, a.name))
        case List(items) => TraceList(items, a.name, 0, scope)
        case _ => [Visit(scope, a.name, a.value)];
      here + TraceAttrs(attrs[1..], scope)
  }

  function TraceList(items: seq<Layer>, name: string, i: nat, scope: string): seq<Visit>
    decreases items, 0
  {
    if items == [] then []
    else Trace(items[0], ElementScope(scope, name, i)) + TraceList(items[1..], name, i + 1, scope)
  }

  // ---------------------------------------------------------------------
  // The generic visitor (`visit_spec`)

  /** `setattr(spec, name, v)` on the owner's attribute list: replace in place, or append. */
  function SetAttr(attrs: seq<Attr>, name: string, v: Value): (r: seq<Attr>)
  {
    if attrs == [] then [Attr(name, v)]
    else if attrs[0].name == name then [Attr(name, v)] + attrs[1..]
    else [attrs[0]] + SetAttr(attrs[1..], name, v)
  }

  function Lookup(attrs: seq<Attr>, name: string): (r: Option<Value>)
  {
    if attrs == [] then None
    else if attrs[0].name == name then Some(attrs[0].value)
    else Lookup(attrs[1..], name)
  }

  /**
   * After visiting a nested layer (or list) of the snapshot, the owner still
   * refers to that same object unless a callback has overwritten the slot;
   * callbacks only ever store arrays, so the slot holds a layer or list iff it
   * was not overwritten.
   */
  function WriteBack(cur: seq<Attr>, name: string, v: Value): seq<Attr>
  {
    match Lookup(cur, name)
    case Some(Node(_)) => SetAttr(cur, name, v)
    case Some(List(_)) => SetAttr(cur, name, v)
    case _ => cur
  }

  /**
   * `visit_spec(spec, fn, scope)`. The callback is split in two: `step` raises or
   * updates the caller's accumulator and sees only the scoped name and the value;
   * `rewrite` is its `setattr` effect on the owning layer. The loop runs over
   * `snap`, the `list(...)` snapshot of the attributes, while `cur` is the
   * owner's live attribute list.
   */
  function VisitLayer<S>(l: Layer, scope: string, s: S,
                         step: (S, string, Value) -> Result<S>,
                         rewrite: (seq<Attr>, string, Value) -> seq<Attr>): Result<(S, Layer)>
    decreases l, 1
  {
    var r :- VisitAttrs(l.attrs, l.attrs, scope, s, step, rewrite);
    Success((r.0, l.(attrs := r.1)))
  }

  function VisitAttrs<S>(snap: seq<Attr>, cur: seq<Attr>, scope: string, s: S,
                         step: (S, string, Value) -> Result<S>,
                         rewrite: (seq<Attr>, string, Value) -> seq<Attr>): Result<(S, seq<Attr>)>
    decreases snap, 0
  {
    if snap == [] then Success((s, cur))
    else
      var a := snap[0];
      match a.value
      case Node(child) =>
        var r :- VisitLayer(child, JoinScope(scope, a.name), s, step, rewrite);
        VisitAttrs(snap[1..], WriteBack(cur, a.name, Node(r.1)), scope, r.0, step, rewrite)
      case List(items) =>
        var r :- VisitList(items, a.name, 0, scope, s, step, rewrite);
        VisitAttrs(snap[1..], WriteBack(cur, a.name, List(r.1)), scope, r.0, step, rewrite)
      case _ =>
        var name := JoinScope(scope, a.name);
        var s1 :- step(s, name, a.value);
        VisitAttrs(snap[1..], rewrite(cur, name, a.value), scope, s1, step, rewrite)
  }

  function VisitList<S>(items: seq<Layer>, name: string, i: nat, scope: string, s: S,
                        step: (S, string, Value) -> Result<S>,
                        rewrite: (seq<Attr>, string, Value) -> seq<Attr>): Result<(S, seq<Layer>)>
    decreases items, 0
  {
    if items == [] then Success((s, []))
    else
      var r :- VisitLayer(items[0], ElementScope(scope, name, i), s, step, rewrite);
      var rest :- VisitList(items[1..], name, i + 1, scope, r.0, step, rewrite);
      Success((rest.0, [r.1] + rest.1))
  }

  // ---------------------------------------------------------------------
  // What the callback sees is fixed by the tree as it was before the visit

  /** The callback's accumulator over a trace, stopping at the first exception. */
  function FoldSteps<S>(t: seq<Visit>, s: S, step: (S, string, Value) -> Result<S>): Result<S>
  {
    if t == [] then Success(s)
    else
      var s1 :- step(s, t[0].ScopedName(), t[0].value);
      FoldSteps(t[1..], s1, step)
  }

  function StateOf<S, X>(r: Result<(S, X)>): Result<S> {
    match r
    case Success(p) => Success(p.0)
    case Failure(e) => Failure(e)
  }

  function Then<S>(r: Result<S>, t: seq<Visit>, step: (S, string, Value) -> Result<S>): Result<S> {
    match r
    case Success(s1) => FoldSteps(t, s1, step)
    case Failure(e) => Failure(e)
  }

  lemma {:induction false} FoldAppend<S>(t1: seq<Visit>, t2: seq<Visit>, s: S, step: (S, string, Value) -> Result<S>)
    ensures FoldSteps(t1 + t2, s, step) == Then(FoldSteps(t1, s, step), t2, step)
  {
    if t1 != [] {
      assert (t1 + t2)[1..] == t1[1..] + t2;
      var r := step(s, t1[0].ScopedName(), t1[0].value);
      if r.Success? {
        FoldAppend(t1[1..], t2, r.value, step);
      }
    } else {
      assert t1 + t2 == t2;
    }
  }

  /**
   * The snapshot property: whatever the callback does to the owning layers, the
   * calls it receives, and so the accumulated result and the first exception,
   * are exactly those of the trace of the tree as it was when the visit began.
   * An attribute a callback adds (such as `weight_scale`) is not visited.
   */
  lemma {:induction false} VisitLayerFollowsTrace<S>(l: Layer, scope: string, s: S,
                                                     step: (S, string, Value) -> Result<S>,
                                                     rewrite: (seq<Attr>, string, Value) -> seq<Attr>)
    ensures StateOf(VisitLayer(l, scope, s, step, rewrite)) == FoldSteps(Trace(l, scope), s, step)
    decreases l, 1
  {
    VisitAttrsFollowsTrace(l.attrs, l.attrs, scope, s, step, rewrite);
  }

  lemma {:induction false} VisitAttrsFollowsTrace<S>(snap: seq<Attr>, cur: seq<Attr>, scope: string, s: S,
                                                     step: (S, string, Value) -> Result<S>,
                                                     rewrite: (seq<Attr>, string, Value) -> seq<Attr>)
    ensures StateOf(VisitAttrs(snap, cur, scope, s, step, rewrite)) == FoldSteps(TraceAttrs(snap, scope), s, step)
    decreases snap, 0
  {
    if snap != [] {
      var a := snap[0];
      var tail := TraceAttrs(snap[1..], scope);
      match a.value
      case Node(child) =>
        var inner := JoinScope(scope, a.name);
        VisitLayerFollowsTrace(child, inner, s, step, rewrite);
        FoldAppend(Trace(child, inner), tail, s, step);
        var r := VisitLayer(child, inner, s, step, rewrite);
        if r.Success? {
          VisitAttrsFollowsTrace(snap[1..], WriteBack(cur, a.name, Node(r.value.1)), scope, r.value.0, step, rewrite);
        }
      case List(items) =>
        VisitListFollowsTrace(items, a.name, 0, scope, s, step, rewrite);
        FoldAppend(TraceList(items, a.name, 0, scope), tail, s, step);
        var r := VisitList(items, a.name, 0, scope, s, step, rewrite);
        if r.Success? {
          VisitAttrsFollowsTrace(snap[1..], WriteBack(cur, a.name, List(r.value.1)), scope, r.value.0, step, rewrite);
        }
      case _ =>
        var name := JoinScope(scope, a.name);
        assert TraceAttrs(snap, scope) == [Visit(scope, a.name, a.value)] + tail;
        var r := step(s, name, a.value);
        if r.Success? {
          VisitAttrsFollowsTrace(snap[1..], rewrite(cur, name, a.value), scope, r.value, step, rewrite);
        }
    }
  }

  lemma {:induction false} VisitListFollowsTrace<S>(items: seq<Layer>, name: string, i: nat, scope: string, s: S,
                                                    step: (S, string, Value) -> Result<S>,
                                                    rewrite: (seq<Attr>, string, Value) -> seq<Attr>)
    ensures StateOf(VisitList(items, name, i, scope, s, step, rewrite)) == FoldSteps(TraceList(items, name, i, scope), s, step)
    decreases items, 0
  {
    if items != [] {
      var inner := ElementScope(scope, name, i);
      VisitLayerFollowsTrace(items[0], inner, s, step, rewrite);
      FoldAppend(Trace(items[0], inner), TraceList(items[1..], name, i + 1, scope), s, step);
      var r := VisitLayer(items[0], inner, s, step, rewrite);
      if r.Success? {
        VisitListFollowsTrace(items[1..], name, i + 1, scope, r.value.0, step, rewrite);
      }
    }
  }

  // ---------------------------------------------------------------------
  // Attribute lists

  function Names(attrs: seq<Attr>): seq<string> {
    if attrs == [] then [] else [attrs[0].name] + Names(attrs[1..])
  }

  lemma {:induction false} LookupAt(done: seq<Attr>, a: Attr, rest: seq<Attr>)
    requires a.name !in Names(done)
    ensures Lookup(done + [a] + rest, a.name) == Some(a.value)
  {
    if done != [] {
      assert (done + [a] + rest)[1..] == done[1..] + [a] + rest;
      LookupAt(done[1..], a, rest);
    }
  }

  lemma {:induction false} SetAttrAt(done: seq<Attr>, a: Attr, rest: seq<Attr>, v: Value)
    requires a.name !in Names(done)
    ensures SetAttr(done + [a] + rest, a.name, v) == done + [Attr(a.name, v)] + rest
  {
    if done != [] {
      assert (done + [a] + rest)[1..] == done[1..] + [a] + rest;
      SetAttrAt(done[1..], a, rest, v);
    }
  }

  lemma {:induction false} NamesAppend(x: seq<Attr>, y: seq<Attr>)
    ensures Names(x + y) == Names(x) + Names(y)
  {
    if x != [] {
      assert (x + y)[1..] == x[1..] + y;
      NamesAppend(x[1..], y);
    } else {
      assert x + y == y;
    }
  }

  /**
   * Attribute names are Python identifiers: unique within a layer and free of
   * "/", so the last segment of a scoped name is the attribute's own name.
   */
  predicate WellNamed(l: Layer)
    decreases l, 1
  {
    WellNamedAttrs(l.attrs)
  }

  predicate WellNamedAttrs(attrs: seq<Attr>)
    decreases attrs, 0
  {
    attrs == [] ||
    ('/' !in attrs[0].name && attrs[0].name !in Names(attrs[1..]) &&
     WellNamedValue(attrs[0].value) && WellNamedAttrs(attrs[1..]))
  }

  predicate WellNamedValue(v: Value)
    decreases v, 0
  {
    match v
    case Node(l) => WellNamed(l)
    case List(items) => WellNamedList(items)
    case _ => true
  }

  predicate WellNamedList(items: seq<Layer>)
    decreases items, 0
  {
    items == [] || (WellNamed(items[0]) && WellNamedList(items[1..]))
  }

  // ---------------------------------------------------------------------
  // validate

  /** `value.astype(np.float32)` of a float16 array's raw bytes, left abstract. */
  type Promotion = seq<byte> -> seq<byte>

  predicate IsHalfArray(v: Value) {
    v.Tensor? && v.arr.dtype == Float16 && !v.arr.scalar
  }

  /** A leaf after promotion: a float16 ndarray becomes a float32 array of the same shape. */
  function PromoteLeaf(p: Promotion, v: Value): Value {
    if IsHalfArray(v) then Tensor(Array(Float32, v.arr.shape, p(v.arr.data), false)) else v
  }

  const MISSING_PREFIX: string := "Missing value for attribute "

  /** The raising half of `_check`. */
  function ValidateStep(u: (), name: string, v: Value): Result<()> {
    if v.Missing? then Failure(MISSING_PREFIX + name) else Success(())
  }

  /** The `setattr` half of `_check`: the owner's attribute named by the last scope segment. */
  function ValidateRewrite(p: Promotion, attrs: seq<Attr>, name: string, v: Value): seq<Attr> {
    if IsHalfArray(v) then SetAttr(attrs, LastSegment(name), PromoteLeaf(p, v)) else attrs
  }

  function ValidateCallback(p: Promotion): (seq<Attr>, string, Value) -> seq<Attr> {
    (attrs, name, v) => ValidateRewrite(p, attrs, name, v)
  }

  /** `LayerSpec.validate`: the validated tree, or the ValueError's message. */
  function Validate(l: Layer, p: Promotion): Result<Layer> {
    var r :- VisitLayer(l, "", (), ValidateStep, ValidateCallback(p));
    Success(r.1)
  }

  /** The tree with every float16 ndarray leaf promoted, all else kept: the reference for `validate`. */
  function PromoteLayer(l: Layer, p: Promotion): Layer
    decreases l, 1
  {
    l.(attrs := PromoteAttrs(l.attrs, p))
  }

  function PromoteAttrs(attrs: seq<Attr>, p: Promotion): seq<Attr>
    decreases attrs, 0
  {
    if attrs == [] then []
    else [Attr(attrs[0].name, PromoteValue(attrs[0].value, p))] + PromoteAttrs(attrs[1..], p)
  }

  function PromoteValue(v: Value, p: Promotion): Value
    decreases v, 0
  {
    match v
    case Node(l) => Node(PromoteLayer(l, p))
    case List(items) => List(PromoteList(items, p))
    case _ => PromoteLeaf(p, v)
  }

  function PromoteList(items: seq<Layer>, p: Promotion): seq<Layer>
    decreases items, 0
  {
    if items == [] then [] else [PromoteLayer(items[0], p)] + PromoteList(items[1..], p)
  }

  lemma {:induction false} PromoteNames(attrs: seq<Attr>, p: Promotion)
    ensures Names(PromoteAttrs(attrs, p)) == Names(attrs)
  {
    if attrs != [] {
      PromoteNames(attrs[1..], p);
    }
  }

  /** The visit with `_check` rewrites each float16 ndarray in its own slot, and nothing else. */
  lemma {:induction false} ValidateVisitLayer(l: Layer, scope: string, p: Promotion)
    requires WellNamed(l)
    requires VisitLayer(l, scope, (), ValidateStep, ValidateCallback(p)).Success?
    ensures VisitLayer(l, scope, (), ValidateStep, ValidateCallback(p)).value.1 == PromoteLayer(l, p)
    decreases l, 2
  {
    assert l.attrs == [] + l.attrs;
    ValidateVisitAttrs(l.attrs, [], scope, p);
  }

  lemma {:induction false} ValidateVisitAttrs(snap: seq<Attr>, done: seq<Attr>, scope: string, p: Promotion)
    requires WellNamedAttrs(snap)
    requires forall n | n in Names(done) :: n !in Names(snap)
    requires VisitAttrs(snap, done + snap, scope, (), ValidateStep, ValidateCallback(p)).Success?
    ensures VisitAttrs(snap, done + snap, scope, (), ValidateStep, ValidateCallback(p)).value.1
            == done + PromoteAttrs(snap, p)
    decreases snap, 1
  {
    if snap == [] {
      assert done + snap == done + PromoteAttrs(snap, p);
    } else {
      var a' := Attr(snap[0].name, PromoteValue(snap[0].value, p));
      ValidateVisitHead(snap, done, scope, p);
      NamesShift(done, a', snap);
      assert done + PromoteAttrs(snap, p) == (done + [a']) + PromoteAttrs(snap[1..], p);
      ValidateVisitAttrs(snap[1..], done + [a'], scope, p);
    }
  }

  /** Moving the first attribute of the snapshot, under its own name, to the visited part. */
  lemma {:induction false} NamesShift(done: seq<Attr>, a': Attr, snap: seq<Attr>)
    requires snap != [] && a'.name == snap[0].name && snap[0].name !in Names(snap[1..])
    requires forall n | n in Names(done) :: n !in Names(snap)
    ensures forall n | n in Names(done + [a']) :: n !in Names(snap[1..])
  {
    assert snap == [snap[0]] + snap[1..];
    assert Names(snap) == [snap[0].name] + Names(snap[1..]);
    NamesAppend(done, [a']);
    assert Names([a']) == [a'.name];
  }

  /** The first attribute of the snapshot is visited and promoted in place. */
  lemma {:induction false} ValidateVisitHead(snap: seq<Attr>, done: seq<Attr>, scope: string, p: Promotion)
    requires WellNamedAttrs(snap) && snap != []
    requires forall n | n in Names(done) :: n !in Names(snap)
    requires VisitAttrs(snap, done + snap, scope, (), ValidateStep, ValidateCallback(p)).Success?
    ensures VisitAttrs(snap, done + snap, scope, (), ValidateStep, ValidateCallback(p))
         == VisitAttrs(snap[1..], done + [Attr(snap[0].name, PromoteValue(snap[0].value, p))] + snap[1..],
                       scope, (), ValidateStep, ValidateCallback(p))
    decreases snap, 0
  {
    var rw := ValidateCallback(p);
    var a := snap[0];
    var rest := snap[1..];
    assert snap == [a] + rest;
    assert Names(snap) == [a.name] + Names(rest);
    var a' := Attr(a.name, PromoteValue(a.value, p));
    assert done + snap == done + [a] + rest;
    var cur' := done + [a'] + rest;
    match a.value
    case Node(child) =>
      var r := VisitLayer(child, JoinScope(scope, a.name), (), ValidateStep, rw);
      assert r.Success? && r.value.0 == ();
      ValidateVisitLayer(child, JoinScope(scope, a.name), p);
      LookupAt(done, a, rest);
      SetAttrAt(done, a, rest, Node(r.value.1));
      assert WriteBack(done + snap, a.name, Node(r.value.1)) == cur';
    case List(items) =>
      var r := VisitList(items, a.name, 0, scope, (), ValidateStep, rw);
      assert r.Success? && r.value.0 == ();
      ValidateVisitList(items, a.name, 0, scope, p);
      LookupAt(done, a, rest);
      SetAttrAt(done, a, rest, List(r.value.1));
      assert WriteBack(done + snap, a.name, List(r.value.1)) == cur';
    case Missing =>
      assert false;
    case Tensor(_) | Optional =>
      var name := JoinScope(scope, a.name);
      SplitJoin(scope, a.name);
      if IsHalfArray(a.value) {
        SetAttrAt(done, a, rest, PromoteLeaf(p, a.value));
      }
      assert rw(done + snap, name, a.value) == cur';
  }

  lemma {:induction false} ValidateVisitList(items: seq<Layer>, name: string, i: nat, scope: string, p: Promotion)
    requires WellNamedList(items)
    requires VisitList(items, name, i, scope, (), ValidateStep, ValidateCallback(p)).Success?
    ensures VisitList(items, name, i, scope, (), ValidateStep, ValidateCallback(p)).value.1 == PromoteList(items, p)
    decreases items, 0
  {
    if items != [] {
      var rw := ValidateCallback(p);
      var r := VisitLayer(items[0], ElementScope(scope, name, i), (), ValidateStep, rw);
      assert r.Success?;
      assert r.value.0 == ();
      var rest := VisitList(items[1..], name, i + 1, scope, (), ValidateStep, rw);
      assert rest.Success?;
      ValidateVisitLayer(items[0], ElementScope(scope, name, i), p);
      ValidateVisitList(items[1..], name, i + 1, scope, p);
    }
  }

  /** `t[k]` is the first leaf of the trace that is None. */
  predicate FirstMissing(t: seq<Visit>, k: int) {
    0 <= k < |t| && t[k].value.Missing? && forall j | 0 <= j < k :: !t[j].value.Missing?
  }

  predicate NoneMissing(t: seq<Visit>) {
    forall k | 0 <= k < |t| :: !t[k].value.Missing?
  }

  lemma {:induction false} ValidateFold(t: seq<Visit>)
    ensures FoldSteps(t, (), ValidateStep).Success? <==> NoneMissing(t)
    ensures FoldSteps(t, (), ValidateStep).Failure? ==>
              exists k :: FirstMissing(t, k) && FoldSteps(t, (), ValidateStep).error == MISSING_PREFIX + t[k].ScopedName()
  {
    if t != [] {
      ValidateFold(t[1..]);
      var r := FoldSteps(t, (), ValidateStep);
      if t[0].value.Missing? {
        assert FirstMissing(t, 0);
      } else {
        assert r == FoldSteps(t[1..], (), ValidateStep);
        if r.Failure? {
          var k :| FirstMissing(t[1..], k) && r.error == MISSING_PREFIX + t[1..][k].ScopedName();
          assert FirstMissing(t, k + 1);
        }
        assert NoneMissing(t[1..]) ==> NoneMissing(t) by {
          if NoneMissing(t[1..]) {
            forall k | 0 <= k < |t| ensures !t[k].value.Missing? {
              if k > 0 { assert t[k] == t[1..][k - 1]; }
            }
          }
        }
      }
    }
  }

  /**
   * `validate` raises ValueError("Missing value for attribute <scoped name>")
   * naming the first None leaf, iff there is one; otherwise the result is the
   * tree with every float16 ndarray leaf promoted in its own slot, and nothing
   * else changed (OPTIONAL, float32 and int32 leaves stay as they are).
   */
  lemma {:induction false} ValidateSpec(l: Layer, p: Promotion)
    requires WellNamed(l)
    ensures Validate(l, p).Success? <==> NoneMissing(Trace(l, ""))
    ensures Validate(l, p).Success? ==> Validate(l, p).value == PromoteLayer(l, p)
    ensures Validate(l, p).Failure? ==>
              exists k :: FirstMissing(Trace(l, ""), k) &&
                          Validate(l, p).error == MISSING_PREFIX + Trace(l, "")[k].ScopedName()
  {
    VisitLayerFollowsTrace(l, "", (), ValidateStep, ValidateCallback(p));
    ValidateFold(Trace(l, ""));
    if VisitLayer(l, "", (), ValidateStep, ValidateCallback(p)).Success? {
      ValidateVisitLayer(l, "", p);
    }
  }

  /** The trace with each leaf promoted. */
  function PromoteTrace(t: seq<Visit>, p: Promotion): (r: seq<Visit>)
    ensures |r| == |t|
  {
    if t == [] then [] else [t[0].(value := PromoteLeaf(p, t[0].value))] + PromoteTrace(t[1..], p)
  }

  lemma {:induction false} PromoteTraceAt(t: seq<Visit>, p: Promotion, k: nat)
    requires k < |t|
    ensures PromoteTrace(t, p)[k] == t[k].(value := PromoteLeaf(p, t[k].value))
  {
    if k > 0 {
      PromoteTraceAt(t[1..], p, k - 1);
    }
  }

  lemma {:induction false} PromoteTraceAppend(x: seq<Visit>, y: seq<Visit>, p: Promotion)
    ensures PromoteTrace(x + y, p) == PromoteTrace(x, p) + PromoteTrace(y, p)
  {
    if x == [] {
      assert x + y == y;
    } else {
      assert (x + y)[1..] == x[1..] + y;
      PromoteTraceAppend(x[1..], y, p);
    }
  }

  /** The promoted tree visits the same leaves, under the same names, with each value promoted. */
  lemma {:induction false} PromoteLayerTrace(l: Layer, scope: string, p: Promotion)
    ensures Trace(PromoteLayer(l, p), scope) == PromoteTrace(Trace(l, scope), p)
    decreases l, 1
  {
    PromoteAttrsTrace(l.attrs, scope, p);
  }

  lemma {:induction false} PromoteAttrsTrace(attrs: seq<Attr>, scope: string, p: Promotion)
    ensures TraceAttrs(PromoteAttrs(attrs, p), scope) == PromoteTrace(TraceAttrs(attrs, scope), p)
    decreases attrs, 0
  {
    if attrs != [] {
      var a := attrs[0];
      PromoteAttrsTrace(attrs[1..], scope, p);
      var tail := TraceAttrs(attrs[1..], scope);
      match a.value
      case Node(child) =>
        PromoteLayerTrace(child, JoinScope(scope, a.name), p);
        PromoteTraceAppend(Trace(child, JoinScope(scope, a.name)), tail, p);
      case List(items) =>
        PromoteListTrace(items, a.name, 0, scope, p);
        PromoteTraceAppend(TraceList(items, a.name, 0, scope), tail, p);
      case _ =>
        PromoteTraceAppend([Visit(scope, a.name, a.value)], tail, p);
    }
  }

  lemma {:induction false} PromoteListTrace(items: seq<Layer>, name: string, i: nat, scope: string, p: Promotion)
    ensures TraceList(PromoteList(items, p), name, i, scope) == PromoteTrace(TraceList(items, name, i, scope), p)
    decreases items, 0
  {
    if items != [] {
      PromoteLayerTrace(items[0], ElementScope(scope, name, i), p);
      PromoteListTrace(items[1..], name, i + 1, scope, p);
      PromoteTraceAppend(Trace(items[0], ElementScope(scope, name, i)),
                         TraceList(items[1..], name, i + 1, scope), p);
    }
  }

  /** After `validate`, no leaf is a float16 ndarray, and no leaf has become None. */
  lemma {:induction false} PromotedLeaves(l: Layer, p: Promotion, k: nat)
    requires k < |Trace(l, "")|
    ensures k < |Trace(PromoteLayer(l, p), "")|
    ensures !IsHalfArray(Trace(PromoteLayer(l, p), "")[k].value)
    ensures Trace(PromoteLayer(l, p), "")[k].value.Missing? == Trace(l, "")[k].value.Missing?
    ensures Trace(PromoteLayer(l, p), "")[k].ScopedName() == Trace(l, "")[k].ScopedName()
  {
    PromoteLayerTrace(l, "", p);
    PromoteTraceAt(Trace(l, ""), p, k);
  }

  lemma {:induction false} PromoteLayerIdempotent(l: Layer, p: Promotion)
    ensures PromoteLayer(PromoteLayer(l, p), p) == PromoteLayer(l, p)
    decreases l, 1
  {
    PromoteAttrsIdempotent(l.attrs, p);
  }

  lemma {:induction false} PromoteAttrsIdempotent(attrs: seq<Attr>, p: Promotion)
    ensures PromoteAttrs(PromoteAttrs(attrs, p), p) == PromoteAttrs(attrs, p)
    decreases attrs, 0
  {
    if attrs != [] {
      PromoteAttrsIdempotent(attrs[1..], p);
      match attrs[0].value
      case Node(child) => PromoteLayerIdempotent(child, p);
      case List(items) => PromoteListIdempotent(items, p);
      case _ =>
    }
  }

  lemma {:induction false} PromoteListIdempotent(items: seq<Layer>, p: Promotion)
    ensures PromoteList(PromoteList(items, p), p) == PromoteList(items, p)
    decreases items, 0
  {
    if items != [] {
      PromoteLayerIdempotent(items[0], p);
      PromoteListIdempotent(items[1..], p);
    }
  }

  lemma {:induction false} PromoteLayerWellNamed(l: Layer, p: Promotion)
    requires WellNamed(l)
    ensures WellNamed(PromoteLayer(l, p))
    decreases l, 1
  {
    PromoteAttrsWellNamed(l.attrs, p);
  }

  lemma {:induction false} PromoteAttrsWellNamed(attrs: seq<Attr>, p: Promotion)
    requires WellNamedAttrs(attrs)
    ensures WellNamedAttrs(PromoteAttrs(attrs, p))
    decreases attrs, 0
  {
    if attrs != [] {
      PromoteAttrsWellNamed(attrs[1..], p);
      PromoteNames(attrs[1..], p);
      match attrs[0].value
      case Node(child) => PromoteLayerWellNamed(child, p);
      case List(items) => PromoteListWellNamed(items, p);
      case _ =>
    }
  }

  lemma {:induction false} PromoteListWellNamed(items: seq<Layer>, p: Promotion)
    requires WellNamedList(items)
    ensures WellNamedList(PromoteList(items, p))
    decreases items, 0
  {
    if items != [] {
      PromoteLayerWellNamed(items[0], p);
      PromoteListWellNamed(items[1..], p);
    }
  }

  /** Calling `validate` again on its result succeeds and changes nothing. */
  lemma {:induction false} ValidateIdempotent(l: Layer, p: Promotion)
    requires WellNamed(l)
    requires Validate(l, p).Success?
    ensures Validate(Validate(l, p).value, p) == Validate(l, p)
  {
    ValidateSpec(l, p);
    var l' := PromoteLayer(l, p);
    PromoteLayerWellNamed(l, p);
    PromoteLayerTrace(l, "", p);
    forall k | 0 <= k < |Trace(l', "")| ensures !Trace(l', "")[k].value.Missing? {
      PromotedLeaves(l, p, k);
    }
    ValidateSpec(l', p);
    PromoteLayerIdempotent(l, p);
  }

  // ---------------------------------------------------------------------
  // variables

  /** A Python dict: its items in insertion order. */
  type Dict = seq<(string, Value)>

  /** `d[k] = v`: an existing key keeps its place, a new one goes last. */
  function Put(d: Dict, k: string, v: Value): Dict {
    if d == [] then [(k, v)]
    else if d[0].0 == k then [(k, v)] + d[1..]
    else [d[0]] + Put(d[1..], k, v)
  }

  function AsMap(d: Dict): map<string, Value> {
    if d == [] then map[] else AsMap(d[1..])[d[0].0 := d[0].1]
  }

  predicate UniqueKeys(d: Dict) {
    forall i, j | 0 <= i < j < |d| :: d[i].0 != d[j].0
  }

  lemma {:induction false} PutSpec(d: Dict, k: string, v: Value)
    ensures AsMap(Put(d, k, v)) == AsMap(d)[k := v]
    ensures forall x | x in Put(d, k, v) :: x == (k, v) || x in d
    ensures UniqueKeys(d) ==> UniqueKeys(Put(d, k, v))
  {
    PutMembers(d, k, v);
    if UniqueKeys(d) {
      PutUnique(d, k, v);
    }
  }

  lemma {:induction false} PutMembers(d: Dict, k: string, v: Value)
    ensures AsMap(Put(d, k, v)) == AsMap(d)[k := v]
    ensures forall x | x in Put(d, k, v) :: x == (k, v) || x in d
  {
    if d != [] && d[0].0 != k {
      PutMembers(d[1..], k, v);
    }
  }

  lemma {:induction false} PutUnique(d: Dict, k: string, v: Value)
    requires UniqueKeys(d)
    ensures UniqueKeys(Put(d, k, v))
  {
    var r := Put(d, k, v);
    if d != [] && d[0].0 != k {
      assert UniqueKeys(d[1..]) by {
        forall i, j | 0 <= i < j < |d[1..]| ensures d[1..][i].0 != d[1..][j].0 {
          assert d[1..][i] == d[i + 1] && d[1..][j] == d[j + 1];
        }
      }
      PutUnique(d[1..], k, v);
      PutMembers(d[1..], k, v);
      assert r[1..] == Put(d[1..], k, v);
      forall j | 0 < j < |r| ensures r[0].0 != r[j].0 {
        assert r[j] in Put(d[1..], k, v);
        if r[j] != (k, v) {
          var m :| 0 <= m < |d[1..]| && d[1..][m] == r[j];
          assert d[1..][m] == d[m + 1];
        }
      }
    } else if d != [] {
      forall i, j | 0 <= i < j < |r| ensures r[i].0 != r[j].0 {
        assert r[j] == d[j];
        if i > 0 { assert r[i] == d[i]; }
      }
    }
  }

  /** The leaf `x` is registered by `variables(prefix)` under the key `key`. */
  predicate Registers(x: Visit, prefix: string, key: string) {
    !x.value.Optional? && JoinScope(prefix, x.ScopedName()) == key
  }

  /** `_register_var`: skip OPTIONAL, otherwise `var[_join_scope(prefix, name)] = value`. */
  function RegisterStep(prefix: string, d: Dict, name: string, v: Value): Result<Dict> {
    if v.Optional? then Success(d) else Success(Put(d, JoinScope(prefix, name), v))
  }

  function RegisterCallback(prefix: string): (Dict, string, Value) -> Result<Dict> {
    (d, name, v) => RegisterStep(prefix, d, name, v)
  }

  function KeepAttrs(): (seq<Attr>, string, Value) -> seq<Attr> {
    (attrs, name, v) => attrs
  }

  lemma {:induction false} RegisterFoldSucceeds(t: seq<Visit>, d: Dict, prefix: string)
    ensures FoldSteps(t, d, RegisterCallback(prefix)).Success?
  {
    if t != [] {
      var r := RegisterCallback(prefix)(d, t[0].ScopedName(), t[0].value);
      RegisterFoldSucceeds(t[1..], r.value, prefix);
    }
  }

  /** `LayerSpec.variables(prefix)`: the dict built by the visitor, in insertion order. */
  function Variables(l: Layer, prefix: string): Dict {
    VisitLayerFollowsTrace(l, "", [], RegisterCallback(prefix), KeepAttrs());
    RegisterFoldSucceeds(Trace(l, ""), [], prefix);
    VisitLayer(l, "", [], RegisterCallback(prefix), KeepAttrs()).value.0
  }

  lemma {:induction false} RegisterFoldSnoc(t: seq<Visit>, x: Visit, prefix: string)
    ensures FoldSteps(t + [x], [], RegisterCallback(prefix)).Success?
    ensures FoldSteps(t, [], RegisterCallback(prefix)).Success?
    ensures FoldSteps(t + [x], [], RegisterCallback(prefix)).value
            == RegisterStep(prefix, FoldSteps(t, [], RegisterCallback(prefix)).value, x.ScopedName(), x.value).value
  {
    var step := RegisterCallback(prefix);
    RegisterFoldSucceeds(t, [], prefix);
    RegisterFoldSucceeds(t + [x], [], prefix);
    FoldAppend(t, [x], [], step);
    var d := FoldSteps(t, [], step).value;
    assert FoldSteps([x], d, step) == FoldSteps([], step(d, x.ScopedName(), x.value).value, step);
  }

  /** Which keys a dict built from trace `t` holds. */
  ghost predicate KeysFrom(d: Dict, t: seq<Visit>, prefix: string) {
    forall key :: key in AsMap(d) <==> exists i :: 0 <= i < |t| && Registers(t[i], prefix, key)
  }

  /** Every key maps to the value of the last leaf of `t` registering it. */
  ghost predicate LastWins(d: Dict, t: seq<Visit>, prefix: string) {
    forall key | key in AsMap(d) ::
      exists i :: 0 <= i < |t| && Registers(t[i], prefix, key) &&
                  AsMap(d)[key] == t[i].value &&
                  forall j | i < j < |t| :: !Registers(t[j], prefix, key)
  }

  /** The dict after one more `_register_var` call. */
  function Registered(d: Dict, x: Visit, prefix: string): Dict {
    RegisterStep(prefix, d, x.ScopedName(), x.value).value
  }

  lemma {:induction false} KeysFromSnoc(d: Dict, t: seq<Visit>, x: Visit, prefix: string)
    requires KeysFrom(d, t, prefix)
    ensures KeysFrom(Registered(d, x, prefix), t + [x], prefix)
  {
    var d2, t2 := Registered(d, x, prefix), t + [x];
    if !x.value.Optional? {
      PutSpec(d, JoinScope(prefix, x.ScopedName()), x.value);
    }
    forall key ensures key in AsMap(d2) <==> exists i :: 0 <= i < |t2| && Registers(t2[i], prefix, key) {
      if key in AsMap(d2) && !Registers(x, prefix, key) {
        var i :| 0 <= i < |t| && Registers(t[i], prefix, key);
        assert t2[i] == t[i];
      }
      if key in AsMap(d2) && Registers(x, prefix, key) {
        assert t2[|t|] == x;
      }
      if exists i :: 0 <= i < |t2| && Registers(t2[i], prefix, key) {
        var i :| 0 <= i < |t2| && Registers(t2[i], prefix, key);
        if i < |t| { assert t2[i] == t[i]; }
      }
    }
  }

  lemma {:induction false} LastWinsSnoc(d: Dict, t: seq<Visit>, x: Visit, prefix: string)
    requires KeysFrom(d, t, prefix) && LastWins(d, t, prefix)
    ensures LastWins(Registered(d, x, prefix), t + [x], prefix)
  {
    var d2, t2 := Registered(d, x, prefix), t + [x];
    if !x.value.Optional? {
      PutSpec(d, JoinScope(prefix, x.ScopedName()), x.value);
    }
    forall key | key in AsMap(d2)
      ensures exists i :: 0 <= i < |t2| && Registers(t2[i], prefix, key) &&
                          AsMap(d2)[key] == t2[i].value && forall j | i < j < |t2| :: !Registers(t2[j], prefix, key)
    {
      if Registers(x, prefix, key) {
        assert Registers(t2[|t|], prefix, key) && AsMap(d2)[key] == t2[|t|].value;
      } else {
        assert key in AsMap(d);
        LastWinsKept(d, t, x, prefix, key);
      }
    }
  }

  /** A key the new leaf does not register keeps its last registering leaf. */
  lemma {:induction false} LastWinsKept(d: Dict, t: seq<Visit>, x: Visit, prefix: string, key: string)
    requires LastWins(d, t, prefix) && key in AsMap(d) && !Registers(x, prefix, key)
    ensures exists i :: 0 <= i < |t + [x]| && Registers((t + [x])[i], prefix, key) &&
                        AsMap(d)[key] == (t + [x])[i].value &&
                        forall j | i < j < |t + [x]| :: !Registers((t + [x])[j], prefix, key)
  {
    var t2 := t + [x];
    var i :| 0 <= i < |t| && Registers(t[i], prefix, key) &&
             AsMap(d)[key] == t[i].value && forall j | i < j < |t| :: !Registers(t[j], prefix, key);
    assert t2[i] == t[i];
    forall j | i < j < |t2| ensures !Registers(t2[j], prefix, key) {
      if j < |t| { assert t2[j] == t[j]; }
    }
  }

  /**
   * The dict the visit builds has unique keys; `key` is in it iff some non-OPTIONAL
   * leaf has `_join_scope(prefix, scoped name) == key`; and then it maps to the
   * value of the last such leaf in visit order.
   */
  lemma {:induction false} RegisterFoldSpec(t: seq<Visit>, prefix: string)
    ensures FoldSteps(t, [], RegisterCallback(prefix)).Success?
    ensures UniqueKeys(FoldSteps(t, [], RegisterCallback(prefix)).value)
    ensures KeysFrom(FoldSteps(t, [], RegisterCallback(prefix)).value, t, prefix)
    ensures LastWins(FoldSteps(t, [], RegisterCallback(prefix)).value, t, prefix)
    decreases |t|
  {
    RegisterFoldSucceeds(t, [], prefix);
    if t != [] {
      var t', x := t[..|t| - 1], t[|t| - 1];
      assert t == t' + [x];
      RegisterFoldSnoc(t', x, prefix);
      RegisterFoldSpec(t', prefix);
      var d' := FoldSteps(t', [], RegisterCallback(prefix)).value;
      if !x.value.Optional? {
        PutSpec(d', JoinScope(prefix, x.ScopedName()), x.value);
      }
      KeysFromSnoc(d', t', x, prefix);
      LastWinsSnoc(d', t', x, prefix);
    }
  }

  /**
   * `variables(prefix)` maps `_join_scope(prefix, name)` to the value of every
   * leaf except OPTIONAL ones (None leaves included), and holds nothing else;
   * when two leaves share a name the later one in visit order wins.
   */
  lemma {:induction false} VariablesSpec(l: Layer, prefix: string)
    ensures UniqueKeys(Variables(l, prefix))
    ensures forall key :: key in AsMap(Variables(l, prefix)) <==>
                          exists i :: 0 <= i < |Trace(l, "")| && Registers(Trace(l, "")[i], prefix, key)
    ensures forall key | key in AsMap(Variables(l, prefix)) ::
              exists i :: 0 <= i < |Trace(l, "")| && Registers(Trace(l, "")[i], prefix, key) &&
                          AsMap(Variables(l, prefix))[key] == Trace(l, "")[i].value &&
                          forall j | i < j < |Trace(l, "")| :: !Registers(Trace(l, "")[j], prefix, key)
  {
    VisitLayerFollowsTrace(l, "", [], RegisterCallback(prefix), KeepAttrs());
    RegisterFoldSpec(Trace(l, ""), prefix);
  }

  // ---------------------------------------------------------------------
  // quantize

  /** Python's `sub in s` on strings. */
  predicate Contains(s: string, sub: string)
    decreases |s|
  {
    |s| >= |sub| && (s[..|sub|] == sub || (s != [] && Contains(s[1..], sub)))
  }

  /**
   * The floating-point arithmetic of `quantize`, left abstract: numpy's `amax`,
   * the scale division, the in-place `*=` and the float-to-integer cast.
   */
  datatype Numerics = Numerics(
    int16Scale: Array -> seq<byte>,   // bytes of the scalar 2**10 / amax(|v|), in v's dtype
    int16Scaled: Array -> seq<byte>,  // v's bytes after `v *= scale`
    int16Trunc: Array -> seq<int>,    // the elements of v * scale, truncated toward zero
    int8Scale: Array -> seq<byte>,    // bytes of 127 / amax(|v|, axis=1)
    int8Scaled: Array -> seq<byte>,   // v's bytes after `v *= expand_dims(scale, 1)`
    int8Trunc: Array -> seq<int>)     // the elements of the scaled v, truncated toward zero

  const INT16_MIN: int := -0x8000
  const INT16_MAX: int := 0x7fff

  /** `np.clip(x, iinfo(int16).min, iinfo(int16).max)`. Clipping to integer bounds commutes with truncation. */
  function Clip16(xs: seq<int>): (r: seq<int>)
    ensures |r| == |xs|
    ensures forall k | 0 <= k < |r| :: INT16_MIN <= r[k] <= INT16_MAX
    ensures forall k | 0 <= k < |r| :: INT16_MIN <= xs[k] <= INT16_MAX ==> r[k] == xs[k]
  {
    seq(|xs|, k requires 0 <= k < |xs| =>
      if xs[k] < INT16_MIN then INT16_MIN else if xs[k] > INT16_MAX then INT16_MAX else xs[k])
  }

  /** The shape of `amax(v, axis=1)`: axis 1 removed. */
  function DropAxis1(shape: seq<nat>): seq<nat>
    requires |shape| >= 2
  {
    shape[..1] + shape[2..]
  }

  const UNBOUND_SCALE: string := "UnboundLocalError: local variable 'scale' referenced before assignment"
  const NOT_AN_ARRAY: string := "quantize: the weight is not an array"
  const NOT_A_MATRIX: string := "quantize: int8 reduces over axis 1 of an array of rank 2 or more"
  const EMPTY_REDUCTION: string := "ValueError: zero-size array to reduction operation maximum which has no identity"
  const NOT_FLOATING: string := "quantize: int8 scales a floating array in place"

  /**
   * The leaf can be quantized in this mode without numpy raising. `amax` has
   * no identity, so it raises when the axis it reduces over is empty: for
   * int16 that is any array without elements, for int8 a zero-length axis 1.
   */
  predicate Quantizable(mode: string, v: Value) {
    || (mode == "int16" && v.Tensor? && Size(v.arr.shape) > 0)
    || (mode == "int8" && v.Tensor? && IsFloat(v.arr.dtype) && |v.arr.shape| >= 2 && v.arr.shape[1] > 0)
  }

  /**
   * The raising half of `_quantize`: only names containing "weight" are looked
   * at; a mode other than int16 and int8 reaches `setattr(spec, "weight_scale",
   * scale)` with `scale` unbound.
   */
  function QuantizeStep(mode: string, u: (), name: string, v: Value): Result<()> {
    if !Contains(name, "weight") || Quantizable(mode, v) then Success(())
    else if mode != "int16" && mode != "int8" then Failure(UNBOUND_SCALE)
    else if !v.Tensor? then Failure(NOT_AN_ARRAY)
    else if mode == "int16" || (|v.arr.shape| >= 2 && v.arr.shape[1] == 0) then Failure(EMPTY_REDUCTION)
    else if |v.arr.shape| < 2 then Failure(NOT_A_MATRIX)
    else Failure(NOT_FLOATING)
  }

  function QuantizeStepFn(mode: string): ((), string, Value) -> Result<()> {
    (u, name, v) => QuantizeStep(mode, u, name, v)
  }

  /** The quantized array and its scale, for a quantizable leaf. */
  function Quantized(num: Numerics, mode: string, a: Array): (r: (Array, Array))
    requires Quantizable(mode, Tensor(a))
  {
    if mode == "int16" then
      (Array(Int16, a.shape, I16s(Clip16(num.int16Trunc(a))), a.scalar),
       Array(a.dtype, [], num.int16Scale(a), true))
    else
      (Array(Int8, a.shape, I8s(num.int8Trunc(a)), false),
       Array(a.dtype, DropAxis1(a.shape), num.int8Scale(a), false))
  }

  /**
   * The lengths the abstract arithmetic keeps for an array: one truncated
   * value per element, a scale in the array's dtype (one value for int16, one
   * per entry of the `amax(..., axis=1)` result for int8), and an in-place
   * `*=` that leaves the byte length as it was.
   */
  predicate Sized(num: Numerics, a: Array) {
    && |num.int16Trunc(a)| == Size(a.shape)
    && |num.int16Scale(a)| == ItemSize(a.dtype)
    && |num.int16Scaled(a)| == |a.data|
    && |num.int8Trunc(a)| == Size(a.shape)
    && (|a.shape| >= 2 ==> |num.int8Scale(a)| == Size(DropAxis1(a.shape)) * ItemSize(a.dtype))
    && |num.int8Scaled(a)| == |a.data|
  }

  /** The array after the in-place `*=`; a numpy scalar is rebound, not changed. */
  function ScaledInPlace(num: Numerics, mode: string, a: Array): Array {
    if mode == "int16" then a.(data := num.int16Scaled(a)) else a.(data := num.int8Scaled(a))
  }

  /**
   * The `setattr` half of `_quantize`: the leaf's own array is scaled in place,
   * then the owner gets `weight_scale` and then `weight`, whatever the leaf's
   * own name was.
   */
  function QuantizeRewrite(num: Numerics, mode: string, attrs: seq<Attr>, name: string, v: Value): seq<Attr> {
    if Contains(name, "weight") && Quantizable(mode, v) then
      var (q, scale) := Quantized(num, mode, v.arr);
      var scaled := if v.arr.scalar then attrs
                    else SetAttr(attrs, LastSegment(name), Tensor(ScaledInPlace(num, mode, v.arr)));
      SetAttr(SetAttr(scaled, "weight_scale", Tensor(scale)), "weight", Tensor(q))
    else attrs
  }

  function QuantizeCallback(num: Numerics, mode: string): (seq<Attr>, string, Value) -> seq<Attr> {
    (attrs, name, v) => QuantizeRewrite(num, mode, attrs, name, v)
  }

  /** `LayerSpec.quantize(quantization)`. */
  function Quantize(l: Layer, mode: string, num: Numerics): Result<Layer> {
    var r :- VisitLayer(l, "", (), QuantizeStepFn(mode), QuantizeCallback(num, mode));
    Success(r.1)
  }

  /** A leaf that `quantize` fails on: weight-named and not quantizable in the mode. */
  predicate Unquantizable(mode: string, x: Visit) {
    Contains(x.ScopedName(), "weight") && !Quantizable(mode, x.value)
  }

  lemma {:induction false} QuantizeFold(t: seq<Visit>, mode: string)
    ensures FoldSteps(t, (), QuantizeStepFn(mode)).Success? <==>
            forall k | 0 <= k < |t| :: !Unquantizable(mode, t[k])
  {
    if t != [] {
      QuantizeFold(t[1..], mode);
      if !Unquantizable(mode, t[0]) {
        assert FoldSteps(t, (), QuantizeStepFn(mode)) == FoldSteps(t[1..], (), QuantizeStepFn(mode));
        if forall k | 0 <= k < |t[1..]| :: !Unquantizable(mode, t[1..][k]) {
          forall k | 0 <= k < |t| ensures !Unquantizable(mode, t[k]) {
            if k > 0 { assert t[k] == t[1..][k - 1]; }
          }
        }
      }
    }
  }

  /**
   * `quantize` raises iff some leaf of the tree as it was (not one the pass
   * adds) has "weight" in its scoped name and cannot be quantized in the mode;
   * with any mode but "int16" and "int8" that is any weight-named leaf at all.
   */
  lemma {:induction false} QuantizeFails(l: Layer, mode: string, num: Numerics)
    ensures Quantize(l, mode, num).Failure? <==>
            exists k :: 0 <= k < |Trace(l, "")| && Unquantizable(mode, Trace(l, "")[k])
    ensures mode != "int16" && mode != "int8" ==>
            (Quantize(l, mode, num).Failure? <==>
             exists k :: 0 <= k < |Trace(l, "")| && Contains(Trace(l, "")[k].ScopedName(), "weight"))
  {
    VisitLayerFollowsTrace(l, "", (), QuantizeStepFn(mode), QuantizeCallback(num, mode));
    QuantizeFold(Trace(l, ""), mode);
  }

  /**
   * `amax` refuses an empty reduction: an int16 weight without elements, or an
   * int8 weight whose axis 1 is empty, makes `quantize` raise, whatever the
   * other axes and the dtype.
   */
  lemma {:induction false} QuantizeEmptyWeight(num: Numerics, dt: DType, n: nat)
    ensures Quantize(Layer("Dense", 1, [Attr("weight", Tensor(Array(dt, [0, n], [], false)))]), "int16", num)
         == Failure(EMPTY_REDUCTION)
    ensures Quantize(Layer("Dense", 1, [Attr("weight", Tensor(Array(dt, [n, 0], [], false)))]), "int8", num)
         == Failure(EMPTY_REDUCTION)
  {
    var w16 := Tensor(Array(dt, [0, n], [], false));
    var w8 := Tensor(Array(dt, [n, 0], [], false));
    assert Contains("weight", "weight");
    assert JoinScope("", "weight") == "weight";
    assert Size([0, n]) == 0 * Size([n]);
    assert QuantizeStepFn("int16")((), "weight", w16) == Failure(EMPTY_REDUCTION);
    assert QuantizeStepFn("int8")((), "weight", w8) == Failure(EMPTY_REDUCTION);
    var a16, a8 := [Attr("weight", w16)], [Attr("weight", w8)];
    assert VisitAttrs(a16, a16, "", (), QuantizeStepFn("int16"), QuantizeCallback(num, "int16")).Failure?;
    assert VisitAttrs(a8, a8, "", (), QuantizeStepFn("int8"), QuantizeCallback(num, "int8")).Failure?;
  }

  // The owner's attribute list after one `_quantize` call

  lemma {:induction false} SetAttrSpec(attrs: seq<Attr>, n: string, v: Value)
    ensures forall m :: Lookup(SetAttr(attrs, n, v), m) == if m == n then Some(v) else Lookup(attrs, m)
    ensures Names(SetAttr(attrs, n, v)) == if n in Names(attrs) then Names(attrs) else Names(attrs) + [n]
  {
    if attrs != [] && attrs[0].name != n {
      SetAttrSpec(attrs[1..], n, v);
    } else if attrs != [] {
      assert Names(SetAttr(attrs, n, v)) == [n] + Names(attrs[1..]);
    }
  }

  /**
   * What `_quantize` computes for a leaf: the weight keeps its shape and
   * becomes int16 or int8, one element per truncated value; the scale is in
   * the leaf's dtype, a scalar for int16 and one entry per row for int8.
   */
  lemma {:induction false} QuantizedShape(num: Numerics, mode: string, a: Array)
    requires Quantizable(mode, Tensor(a))
    ensures var (q, sc) := Quantized(num, mode, a);
      && q.shape == a.shape
      && q.dtype == (if mode == "int16" then Int16 else Int8)
      && |q.data| == ItemSize(q.dtype) * (if mode == "int16" then |num.int16Trunc(a)| else |num.int8Trunc(a)|)
      && sc.dtype == a.dtype
      && sc.shape == (if mode == "int16" then [] else DropAxis1(a.shape))
      && sc.scalar == (mode == "int16")
  {
    var q := Quantized(num, mode, a).0;
    if mode == "int16" {
      assert |q.data| == 2 * |Clip16(num.int16Trunc(a))| == ItemSize(q.dtype) * |num.int16Trunc(a)|;
    } else {
      assert |q.data| == ItemSize(q.dtype) * |num.int8Trunc(a)|;
    }
  }

  /**
   * With arithmetic that keeps the lengths, a consistent leaf yields a
   * consistent weight, scale and scaled leaf, so the quantized tree can still
   * be serialized.
   */
  lemma {:induction false} QuantizedConsistent(num: Numerics, mode: string, a: Array)
    requires Quantizable(mode, Tensor(a)) && Consistent(a) && Sized(num, a)
    ensures Consistent(Quantized(num, mode, a).0) && Consistent(Quantized(num, mode, a).1)
    ensures Consistent(ScaledInPlace(num, mode, a))
  {
    var (q, sc) := Quantized(num, mode, a);
    QuantizedShape(num, mode, a);
    if mode == "int16" {
      assert Size(sc.shape) == 1;
    }
  }

  /**
   * One `_quantize` call on a quantizable weight-named leaf: the owner's
   * `weight` holds the quantized array and `weight_scale` the scale; the
   * leaf's own slot holds its array scaled in place (a numpy scalar is left
   * as it was); every other attribute is untouched.
   */
  lemma {:induction false} QuantizeRewriteSpec(num: Numerics, mode: string, attrs: seq<Attr>, name: string, v: Value)
    requires Contains(name, "weight") && Quantizable(mode, v)
    ensures var r := QuantizeRewrite(num, mode, attrs, name, v);
            var own := LastSegment(name);
      && Lookup(r, "weight") == Some(Tensor(Quantized(num, mode, v.arr).0))
      && Lookup(r, "weight_scale") == Some(Tensor(Quantized(num, mode, v.arr).1))
      && (forall m | m != "weight" && m != "weight_scale" && m != own :: Lookup(r, m) == Lookup(attrs, m))
      && (own != "weight" && own != "weight_scale" ==>
            Lookup(r, own) == if v.arr.scalar then Lookup(attrs, own) else Some(Tensor(ScaledInPlace(num, mode, v.arr))))
  {
    var (q, scale) := Quantized(num, mode, v.arr);
    var own := LastSegment(name);
    var scaled := if v.arr.scalar then attrs else SetAttr(attrs, own, Tensor(ScaledInPlace(num, mode, v.arr)));
    if !v.arr.scalar {
      SetAttrSpec(attrs, own, Tensor(ScaledInPlace(num, mode, v.arr)));
    }
    SetAttrSpec(scaled, "weight_scale", Tensor(scale));
    SetAttrSpec(SetAttr(scaled, "weight_scale", Tensor(scale)), "weight", Tensor(q));
  }

  /** `_quantize` only rebinds or appends attributes: the owner's names keep their order. */
  lemma {:induction false} QuantizeRewriteKeepsNames(num: Numerics, mode: string, attrs: seq<Attr>, name: string, v: Value)
    requires Contains(name, "weight") && Quantizable(mode, v)
    ensures Names(attrs) <= Names(QuantizeRewrite(num, mode, attrs, name, v))
  {
    var (q, scale) := Quantized(num, mode, v.arr);
    var own := LastSegment(name);
    var scaled := if v.arr.scalar then attrs else SetAttr(attrs, own, Tensor(ScaledInPlace(num, mode, v.arr)));
    if !v.arr.scalar {
      SetAttrSpec(attrs, own, Tensor(ScaledInPlace(num, mode, v.arr)));
    }
    var withScale := SetAttr(scaled, "weight_scale", Tensor(scale));
    SetAttrSpec(scaled, "weight_scale", Tensor(scale));
    var r := SetAttr(withScale, "weight", Tensor(q));
    SetAttrSpec(withScale, "weight", Tensor(q));
    PrefixTransitive(Names(attrs), Names(scaled), Names(withScale));
    PrefixTransitive(Names(attrs), Names(withScale), Names(r));
  }

  lemma {:induction false} PrefixTransitive(a: seq<string>, b: seq<string>, c: seq<string>)
    requires a <= b && b <= c
    ensures a <= c
  {
    assert a == b[..|a|] && b == c[..|b|];
    assert c[..|b|][..|a|] == c[..|a|];
  }

  /** The int16 weight's elements read back as the clipped, truncated scaled values, all within int16. */
  lemma {:induction false} QuantizeInt16Bound(num: Numerics, a: Array)
    requires Size(a.shape) > 0
    ensures var q := Quantized(num, "int16", a).0;
      && ReadI16s(q.data) == Clip16(num.int16Trunc(a))
      && forall k | 0 <= k < |ReadI16s(q.data)| :: INT16_MIN <= ReadI16s(q.data)[k] <= INT16_MAX
  {
    I16sRoundTrip(Clip16(num.int16Trunc(a)));
  }

  /** The int8 weight's elements read back as the truncated scaled values when those fit in eight bits. */
  lemma {:induction false} QuantizeInt8Values(num: Numerics, a: Array)
    requires Quantizable("int8", Tensor(a))
    requires forall k | 0 <= k < |num.int8Trunc(a)| :: -0x80 <= num.int8Trunc(a)[k] < 0x80
    ensures ReadI8s(Quantized(num, "int8", a).0.data) == num.int8Trunc(a)
    ensures |a.shape| == 2 ==> Quantized(num, "int8", a).1.shape == [a.shape[0]]
  {
    I8sRoundTrip(num.int8Trunc(a));
  }

  // A pass whose callback touches nothing leaves the tree as it was

  ghost predicate Inert(rewrite: (seq<Attr>, string, Value) -> seq<Attr>, t: seq<Visit>) {
    forall k, attrs | 0 <= k < |t| :: rewrite(attrs, t[k].ScopedName(), t[k].value) == attrs
  }

  lemma {:induction false} InertSplit(rewrite: (seq<Attr>, string, Value) -> seq<Attr>, x: seq<Visit>, y: seq<Visit>)
    requires Inert(rewrite, x + y)
    ensures Inert(rewrite, x) && Inert(rewrite, y)
  {
    forall k, attrs | 0 <= k < |x| ensures rewrite(attrs, x[k].ScopedName(), x[k].value) == attrs {
      assert (x + y)[k] == x[k];
    }
    forall k, attrs | 0 <= k < |y| ensures rewrite(attrs, y[k].ScopedName(), y[k].value) == attrs {
      assert (x + y)[|x| + k] == y[k];
    }
  }

  lemma {:induction false} VisitInertLayer<S>(l: Layer, scope: string, s: S,
                                              step: (S, string, Value) -> Result<S>,
                                              rewrite: (seq<Attr>, string, Value) -> seq<Attr>)
    requires WellNamed(l) && Inert(rewrite, Trace(l, scope))
    requires VisitLayer(l, scope, s, step, rewrite).Success?
    ensures VisitLayer(l, scope, s, step, rewrite).value.1 == l
    decreases l, 2
  {
    assert l.attrs == [] + l.attrs;
    VisitInertAttrs(l.attrs, [], scope, s, step, rewrite);
  }

  lemma {:induction false} VisitInertAttrs<S>(snap: seq<Attr>, done: seq<Attr>, scope: string, s: S,
                                              step: (S, string, Value) -> Result<S>,
                                              rewrite: (seq<Attr>, string, Value) -> seq<Attr>)
    requires WellNamedAttrs(snap) && Inert(rewrite, TraceAttrs(snap, scope))
    requires forall n | n in Names(done) :: n !in Names(snap)
    requires VisitAttrs(snap, done + snap, scope, s, step, rewrite).Success?
    ensures VisitAttrs(snap, done + snap, scope, s, step, rewrite).value.1 == done + snap
    decreases snap, 1
  {
    if snap != [] {
      var a := snap[0];
      var rest := snap[1..];
      assert snap == [a] + rest;
      assert Names(snap) == [a.name] + Names(rest);
      assert done + snap == (done + [a]) + rest;
      NamesAppend(done, [a]);
      assert Names([a]) == [a.name];
      var s' := VisitInertHead(snap, done, scope, s, step, rewrite);
      VisitInertAttrs(rest, done + [a], scope, s', step, rewrite);
    }
  }

  /** Visiting the first attribute of the snapshot leaves the attributes as they were. */
  lemma {:induction false} VisitInertHead<S>(snap: seq<Attr>, done: seq<Attr>, scope: string, s: S,
                                             step: (S, string, Value) -> Result<S>,
                                             rewrite: (seq<Attr>, string, Value) -> seq<Attr>)
      returns (s': S)
    requires WellNamedAttrs(snap) && snap != [] && Inert(rewrite, TraceAttrs(snap, scope))
    requires forall n | n in Names(done) :: n !in Names(snap)
    requires VisitAttrs(snap, done + snap, scope, s, step, rewrite).Success?
    ensures Inert(rewrite, TraceAttrs(snap[1..], scope))
    ensures VisitAttrs(snap, done + snap, scope, s, step, rewrite)
         == VisitAttrs(snap[1..], done + snap, scope, s', step, rewrite)
    decreases snap, 0
  {
    var a := snap[0];
    var rest := snap[1..];
    assert snap == [a] + rest;
    assert Names(snap) == [a.name] + Names(rest);
    assert done + snap == done + [a] + rest;
    var tail := TraceAttrs(rest, scope);
    match a.value
    case Node(child) =>
      InertSplit(rewrite, Trace(child, JoinScope(scope, a.name)), tail);
      var r := VisitLayer(child, JoinScope(scope, a.name), s, step, rewrite);
      VisitInertLayer(child, JoinScope(scope, a.name), s, step, rewrite);
      LookupAt(done, a, rest);
      SetAttrAt(done, a, rest, Node(child));
      s' := r.value.0;
    case List(items) =>
      InertSplit(rewrite, TraceList(items, a.name, 0, scope), tail);
      var r := VisitList(items, a.name, 0, scope, s, step, rewrite);
      VisitInertList(items, a.name, 0, scope, s, step, rewrite);
      LookupAt(done, a, rest);
      SetAttrAt(done, a, rest, List(items));
      s' := r.value.0;
    case _ =>
      var name := JoinScope(scope, a.name);
      var v := Visit(scope, a.name, a.value);
      InertSplit(rewrite, [v], tail);
      assert [v][0].ScopedName() == name;
      assert rewrite(done + snap, [v][0].ScopedName(), [v][0].value) == done + snap;
      s' := step(s, name, a.value).value;
  }

  lemma {:induction false} VisitInertList<S>(items: seq<Layer>, name: string, i: nat, scope: string, s: S,
                                             step: (S, string, Value) -> Result<S>,
                                             rewrite: (seq<Attr>, string, Value) -> seq<Attr>)
    requires WellNamedList(items) && Inert(rewrite, TraceList(items, name, i, scope))
    requires VisitList(items, name, i, scope, s, step, rewrite).Success?
    ensures VisitList(items, name, i, scope, s, step, rewrite).value.1 == items
    decreases items, 0
  {
    if items != [] {
      var inner := ElementScope(scope, name, i);
      InertSplit(rewrite, Trace(items[0], inner), TraceList(items[1..], name, i + 1, scope));
      var r := VisitLayer(items[0], inner, s, step, rewrite);
      VisitInertLayer(items[0], inner, s, step, rewrite);
      VisitInertList(items[1..], name, i + 1, scope, r.value.0, step, rewrite);
    }
  }

  /**
   * A tree none of whose scoped names contains "weight" comes back unchanged,
   * whatever the mode: `quantize` acts on weight-named leaves only.
   */
  lemma {:induction false} QuantizeWithoutWeights(l: Layer, mode: string, num: Numerics)
    requires WellNamed(l)
    requires forall k | 0 <= k < |Trace(l, "")| :: !Contains(Trace(l, "")[k].ScopedName(), "weight")
    ensures Quantize(l, mode, num) == Success(l)
  {
    QuantizeFails(l, mode, num);
    VisitInertLayer(l, "", (), QuantizeStepFn(mode), QuantizeCallback(num, mode));
  }

  // The two passes below, one `setattr` sequence at a time

  lemma {:induction false} VisitLeafHead<S>(snap: seq<Attr>, cur: seq<Attr>, scope: string, s: S,
                         step: (S, string, Value) -> Result<S>,
                         rewrite: (seq<Attr>, string, Value) -> seq<Attr>)
    requires snap != [] && snap[0].value.Tensor?
    requires step(s, JoinScope(scope, snap[0].name), snap[0].value).Success?
    ensures VisitAttrs(snap, cur, scope, s, step, rewrite)
         == VisitAttrs(snap[1..], rewrite(cur, JoinScope(scope, snap[0].name), snap[0].value), scope,
                       step(s, JoinScope(scope, snap[0].name), snap[0].value).value, step, rewrite)
  {
  }

  lemma {:induction false} SetAttrFirst(x: Attr, rest: seq<Attr>, v: Value)
    ensures SetAttr([x] + rest, x.name, v) == [Attr(x.name, v)] + rest
  {
    assert ([x] + rest)[1..] == rest;
  }

  lemma {:induction false} SetAttrSecond(x: Attr, y: Attr, v: Value)
    requires x.name != y.name
    ensures SetAttr([x, y], y.name, v) == [x, Attr(y.name, v)]
  {
    assert [x, y][1..] == [y];
  }

  lemma {:induction false} SetAttrAfter(x: Attr, name: string, v: Value)
    requires x.name != name
    ensures SetAttr([x], name, v) == [x, Attr(name, v)]
  {
    assert [x][1..] == [];
  }

  /** An int16 pass reaching a top-level, non-scalar `weight`. */
  lemma {:induction false} RewriteTopWeight(num: Numerics, attrs: seq<Attr>, a: Array)
    requires !a.scalar && Size(a.shape) > 0
    ensures var r := Quantized(num, "int16", a);
      QuantizeRewrite(num, "int16", attrs, "weight", Tensor(a))
        == SetAttr(SetAttr(SetAttr(attrs, "weight", Tensor(ScaledInPlace(num, "int16", a))),
                           "weight_scale", Tensor(r.1)), "weight", Tensor(r.0))
  {
    SplitJoin("", "weight");
    assert Contains("weight", "weight");
  }

  lemma {:induction false} RewriteLoneWeight(num: Numerics, a: Array)
    requires !a.scalar && Size(a.shape) > 0
    ensures var r := Quantized(num, "int16", a);
      QuantizeRewrite(num, "int16", [Attr("weight", Tensor(a))], "weight", Tensor(a))
        == [Attr("weight", Tensor(r.0)), Attr("weight_scale", Tensor(r.1))]
  {
    var (q, sc) := Quantized(num, "int16", a);
    RewriteTopWeight(num, [Attr("weight", Tensor(a))], a);
    var w := Attr("weight", Tensor(ScaledInPlace(num, "int16", a)));
    SetAttrFirst(Attr("weight", Tensor(a)), [], w.value);
    SetAttrAfter(w, "weight_scale", Tensor(sc));
    SetAttrFirst(w, [Attr("weight_scale", Tensor(sc))], Tensor(q));
  }

  lemma {:induction false} RewriteWeightBeforeScale(num: Numerics, q: Array, sc: Array, x: Array)
    requires !q.scalar && Size(q.shape) > 0
    ensures var r := Quantized(num, "int16", q);
      QuantizeRewrite(num, "int16", [Attr("weight", Tensor(q)), Attr("weight_scale", Tensor(x))], "weight", Tensor(q))
        == [Attr("weight", Tensor(r.0)), Attr("weight_scale", Tensor(r.1))]
  {
    var (q2, sc2) := Quantized(num, "int16", q);
    var attrs0 := [Attr("weight", Tensor(q)), Attr("weight_scale", Tensor(x))];
    RewriteTopWeight(num, attrs0, q);
    var w := Attr("weight", Tensor(ScaledInPlace(num, "int16", q)));
    SetAttrFirst(attrs0[0], [attrs0[1]], w.value);
    SetAttrSecond(w, attrs0[1], Tensor(sc2));
    SetAttrFirst(w, [Attr("weight_scale", Tensor(sc2))], Tensor(q2));
  }

  lemma {:induction false} RewriteScalarScale(num: Numerics, sc: Array, y: Array, z: Array)
    requires sc.scalar && Size(sc.shape) > 0
    ensures var r := Quantized(num, "int16", sc);
      QuantizeRewrite(num, "int16", [Attr("weight", Tensor(y)), Attr("weight_scale", Tensor(z))], "weight_scale", Tensor(sc))
        == [Attr("weight", Tensor(r.0)), Attr("weight_scale", Tensor(r.1))]
  {
    var (q3, sc3) := Quantized(num, "int16", sc);
    assert "weight_scale"[..6] == "weight";
    assert Contains("weight_scale", "weight");
    var attrs1 := [Attr("weight", Tensor(y)), Attr("weight_scale", Tensor(z))];
    var s3 := [attrs1[0], Attr("weight_scale", Tensor(sc3))];
    assert SetAttr(attrs1, "weight_scale", Tensor(sc3)) == s3;
  }

  /**
   * The snapshot at work: quantizing a layer whose only attribute is `weight`
   * adds `weight_scale` after it, and that new attribute is not itself
   * quantized although its name contains "weight".
   */
  lemma {:induction false} QuantizeAddsScale(num: Numerics, a: Array)
    requires !a.scalar && Size(a.shape) > 0
    ensures var r := Quantized(num, "int16", a);
      Quantize(Layer("Dense", 1, [Attr("weight", Tensor(a))]), "int16", num)
        == Success(Layer("Dense", 1, [Attr("weight", Tensor(r.0)), Attr("weight_scale", Tensor(r.1))]))
  {
    var w := Attr("weight", Tensor(a));
    var st, rw := QuantizeStepFn("int16"), QuantizeCallback(num, "int16");
    RewriteLoneWeight(num, a);
    assert Contains("weight", "weight");
    assert st((), "weight", Tensor(a)) == Success(());
    assert JoinScope("", "weight") == "weight";
    assert [w][1..] == [];
    var r := Quantized(num, "int16", a);
    assert VisitAttrs([w], [w], "", (), st, rw)
        == Success(((), [Attr("weight", Tensor(r.0)), Attr("weight_scale", Tensor(r.1))]));
  }

  /**
   * Quantizing twice is not guarded against: the second int16 pass also visits
   * `weight_scale` (its name contains "weight"), so `weight` ends up holding the
   * quantized first-pass scale.
   */
  lemma {:induction false} RequantizeHitsScale(num: Numerics, a: Array)
    requires !a.scalar && Size(a.shape) > 0
    ensures var r := Quantized(num, "int16", a);
            var again := Quantized(num, "int16", r.1);
      Quantize(Layer("Dense", 1, [Attr("weight", Tensor(r.0)), Attr("weight_scale", Tensor(r.1))]), "int16", num)
        == Success(Layer("Dense", 1, [Attr("weight", Tensor(again.0)), Attr("weight_scale", Tensor(again.1))]))
  {
    var (q, sc) := Quantized(num, "int16", a);
    var (q2, sc2) := Quantized(num, "int16", q);
    var st, rw := QuantizeStepFn("int16"), QuantizeCallback(num, "int16");
    var attrs0 := [Attr("weight", Tensor(q)), Attr("weight_scale", Tensor(sc))];
    var attrs1 := [Attr("weight", Tensor(q2)), Attr("weight_scale", Tensor(sc2))];
    RewriteWeightBeforeScale(num, q, sc, sc);
    assert rw(attrs0, "weight", Tensor(q)) == attrs1;
    RewriteScalarScale(num, sc, q2, sc2);
    VisitLeafHead(attrs0, attrs0, "", (), st, rw);
    VisitLeafHead(attrs0[1..], attrs1, "", (), st, rw);
    assert attrs0[1..][1..] == [];
  }

}
