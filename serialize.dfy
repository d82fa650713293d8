/**
 * `LayerSpec.serialize`: the binary model file (binary version 2) written from
 * the flattened variables, with the records in ascending name order.
 *
 * The file handle is replaced by the byte sequence written to it. `struct.pack`
 * range errors, the latin-1 encoding error of `six.b` and the attribute error
 * raised on a `None` value are `Failure`s.
 *
 * `ReadModel` is a reader for the same layout, used as the inverse of
 * `Serialization`.
 */
module SpecSerializer {
  import opened Wrappers
  import opened Bytes
  import opened ModelSpec

  /** The version written first, and the one the native loader expects. */
  const BINARY_VERSION: nat := 2

  const STRUCT_ERROR := "struct.error: argument out of range"
  const ENCODE_ERROR := "UnicodeEncodeError: 'latin-1' codec can't encode character"
  const NO_SHAPE := "AttributeError: 'NoneType' object has no attribute 'shape'"

  // ---------------------------------------------------------------------
  // struct.pack and six.b

  /** `struct.pack("B", x)`. */
  function PackU8(x: int): (r: Result<seq<byte>>)
    ensures r.Success? <==> 0 <= x < 256
    ensures r.Success? ==> |r.value| == 1 && r.value[0] == x
  {
    if 0 <= x < 256 then Success(U8(x)) else Failure(STRUCT_ERROR)
  }

  /** `struct.pack("H", x)`. */
  function PackU16(x: int): (r: Result<seq<byte>>)
    ensures r.Success? <==> 0 <= x < U16_LIMIT
    ensures r.Success? ==> |r.value| == 2
  {
    if 0 <= x < U16_LIMIT then Success(U16(x)) else Failure(STRUCT_ERROR)
  }

  /** `struct.pack("I", x)`. */
  function PackU32(x: int): (r: Result<seq<byte>>)
    ensures r.Success? <==> 0 <= x < U32_LIMIT
    ensures r.Success? ==> |r.value| == 4
  {
    if 0 <= x < U32_LIMIT then Success(U32(x)) else Failure(STRUCT_ERROR)
  }

  predicate Latin1Encodable(s: string) {
    forall i | 0 <= i < |s| :: s[i] as int < 256
  }

  /** `six.b(s)`, that is `s.encode("latin-1")`: one byte per character. */
  function Latin1(s: string): (r: Result<seq<byte>>)
    ensures r.Success? <==> Latin1Encodable(s)
    ensures r.Success? ==> |r.value| == |s| && forall i | 0 <= i < |s| :: r.value[i] == s[i] as int
  {
    if s == [] then Success([])
    else if s[0] as int >= 256 then Failure(ENCODE_ERROR)
    else
      var t :- Latin1(s[1..]);
      assert forall i | 1 <= i < |s| :: s[1..][i - 1] == s[i];
      Success([s[0] as int] + t)
  }

  predicate StringEncodable(s: string) {
    |s| + 1 < U16_LIMIT && Latin1Encodable(s)
  }

  /**
   * `_write_string`: uint16 `len + 1`, the bytes, a 0 terminator; the prefix
   * counts exactly the bytes that follow it.
   */
  function EncodeString(s: string): (r: Result<seq<byte>>)
    ensures r.Success? <==> StringEncodable(s)
    ensures r.Success? ==>
      && |r.value| == |s| + 3
      && ReadU16(r.value) == |r.value| - 2
      && (forall i | 0 <= i < |s| :: r.value[2 + i] == s[i] as int)
      && r.value[|r.value| - 1] == 0
  {
    var n :- PackU16(|s| + 1);
    var b :- Latin1(s);
    U16RoundTrip(|s| + 1, b + [0]);
    assert n + b + [0] == U16(|s| + 1) + (b + [0]);
    Success(n + b + [0])
  }

  // ---------------------------------------------------------------------
  // A run of writes

  /** One `model.write(enc(x))` per element, in order; the first exception stops the run. */
  function EncodeAll<T>(xs: seq<T>, enc: T -> Result<seq<byte>>): (r: Result<seq<byte>>)
  {
    if xs == [] then Success([])
    else
      var h :- enc(xs[0]);
      var t :- EncodeAll(xs[1..], enc);
      Success(h + t)
  }

  lemma {:induction false} EncodeAllSucceeds<T>(xs: seq<T>, enc: T -> Result<seq<byte>>)
    ensures EncodeAll(xs, enc).Success? <==> forall i | 0 <= i < |xs| :: enc(xs[i]).Success?
  {
    if xs != [] {
      EncodeAllSucceeds(xs[1..], enc);
      assert forall i | 1 <= i < |xs| :: xs[1..][i - 1] == xs[i];
    }
  }

  /** Writing `p` then `q` is writing `p + q`, including where it stops. */
  lemma {:induction false} EncodeAllAppend<T>(p: seq<T>, q: seq<T>, enc: T -> Result<seq<byte>>)
    ensures EncodeAll(p, enc).Failure? ==> EncodeAll(p + q, enc) == EncodeAll(p, enc)
    ensures EncodeAll(p, enc).Success? && EncodeAll(q, enc).Failure? ==> EncodeAll(p + q, enc) == EncodeAll(q, enc)
    ensures EncodeAll(p, enc).Success? && EncodeAll(q, enc).Success? ==>
              EncodeAll(p + q, enc) == Success(EncodeAll(p, enc).value + EncodeAll(q, enc).value)
  {
    if p == [] {
      assert p + q == q;
      if EncodeAll(q, enc).Success? {
        assert [] + EncodeAll(q, enc).value == EncodeAll(q, enc).value;
      }
    } else {
      var pq := p + q;
      assert pq[1..] == p[1..] + q;
      assert pq[0] == p[0];
      EncodeAllAppend(p[1..], q, enc);
      var h := enc(p[0]);
      var t := EncodeAll(p[1..], enc);
      if h.Success? && t.Success? && EncodeAll(q, enc).Success? {
        assert h.value + (t.value + EncodeAll(q, enc).value) == (h.value + t.value) + EncodeAll(q, enc).value;
      }
    }
  }

  /** Writing a run one more element at a time. */
  lemma {:induction false} EncodeAllSnoc<T>(xs: seq<T>, i: nat, enc: T -> Result<seq<byte>>)
    requires i < |xs|
    requires EncodeAll(xs[..i], enc).Success?
    ensures enc(xs[i]).Failure? ==> EncodeAll(xs, enc) == Failure(enc(xs[i]).error)
    ensures enc(xs[i]).Success? ==>
              EncodeAll(xs[..i + 1], enc) == Success(EncodeAll(xs[..i], enc).value + enc(xs[i]).value)
  {
    var one := [xs[i]];
    assert one[1..] == [];
    assert EncodeAll([], enc) == Success([]);
    if enc(xs[i]).Success? {
      assert enc(xs[i]).value + [] == enc(xs[i]).value;
    }
    EncodeAllAppend(xs[..i], one, enc);
    assert xs[..i] + one == xs[..i + 1];
    EncodeAllAppend(one, xs[i + 1..], enc);
    EncodeAllAppend(xs[..i], xs[i..], enc);
    assert xs[..i] + xs[i..] == xs;
    assert xs[i..] == one + xs[i + 1..];
  }

  // ---------------------------------------------------------------------
  // Records

  /** `struct.pack("I", dim)`. */
  function PackDim(dim: nat): (r: Result<seq<byte>>)
    ensures r.Success? <==> dim < U32_LIMIT
  {
    PackU32(dim)
  }

  /** The `for dim in value.shape` loop. */
  function PackDims(shape: seq<nat>): (r: Result<seq<byte>>)
  {
    EncodeAll(shape, PackDim)
  }

  predicate RecordEncodable(name: string, v: Value) {
    && StringEncodable(name)
    && v.Tensor?
    && |v.arr.shape| < 256
    && (forall i | 0 <= i < |v.arr.shape| :: v.arr.shape[i] < U32_LIMIT)
    && Size(v.arr.shape) < U32_LIMIT
  }

  /**
   * One record: name, uint8 rank, uint32 per dimension, uint8 item size,
   * uint32 element count, raw bytes. A `None` value (only `OPTIONAL` is
   * skipped by `variables`) fails on `value.shape`.
   */
  function EncodeRecord(entry: (string, Value)): (r: Result<seq<byte>>)
  {
    var (name, v) := entry;
    var nm :- EncodeString(name);
    if !v.Tensor? then Failure(NO_SHAPE)
    else
      var rank :- PackU8(|v.arr.shape|);
      var dims :- PackDims(v.arr.shape);
      var item := U8(ItemSize(v.arr.dtype));
      var count :- PackU32(Size(v.arr.shape));
      Success(nm + rank + dims + item + count + v.arr.data)
  }

  lemma {:induction false} EncodeRecordSucceeds(entry: (string, Value))
    ensures EncodeRecord(entry).Success? <==> RecordEncodable(entry.0, entry.1)
  {
    if entry.1.Tensor? {
      EncodeAllSucceeds(entry.1.arr.shape, PackDim);
    }
  }

  /** The records in the given order, stopping at the first error. */
  function EncodeRecords(vs: Dict): (r: Result<seq<byte>>)
  {
    EncodeAll(vs, EncodeRecord)
  }

  lemma {:induction false} EncodeRecordsSucceeds(vs: Dict)
    ensures EncodeRecords(vs).Success? <==> forall i | 0 <= i < |vs| :: RecordEncodable(vs[i].0, vs[i].1)
  {
    EncodeAllSucceeds(vs, EncodeRecord);
    forall i | 0 <= i < |vs| {
      EncodeRecordSucceeds(vs[i]);
    }
  }

  /** The header: version 2, class name, revision, number of variables. */
  function EncodeHeader(className: string, revision: int, count: nat): (r: Result<seq<byte>>)
    ensures r.Success? <==> StringEncodable(className) && 0 <= revision < U32_LIMIT && count < U32_LIMIT
  {
    var cls :- EncodeString(className);
    var rev :- PackU32(revision);
    var n :- PackU32(count);
    Success(U32(BINARY_VERSION) + cls + rev + n)
  }

  // ---------------------------------------------------------------------
  // Python's `sorted(..., key=lambda x: x[0])` on the variable names

  /** `str` ordering: lexicographic by code point, a proper prefix first. */
  predicate StrLess(a: string, b: string) {
    if b == [] then false
    else if a == [] then true
    else if a[0] != b[0] then a[0] < b[0]
    else StrLess(a[1..], b[1..])
  }

  lemma {:induction false} StrLessIrreflexive(a: string)
    ensures !StrLess(a, a)
  {
    if a != [] {
      StrLessIrreflexive(a[1..]);
    }
  }

  lemma {:induction false} StrLessTransitive(a: string, b: string, c: string)
    requires StrLess(a, b) && StrLess(b, c)
    ensures StrLess(a, c)
  {
    if a != [] && a[0] == b[0] && b[0] == c[0] {
      StrLessTransitive(a[1..], b[1..], c[1..]);
    }
  }

  lemma {:induction false} StrLessTotal(a: string, b: string)
    ensures a == b || StrLess(a, b) || StrLess(b, a)
  {
    if a != [] && b != [] && a[0] == b[0] {
      StrLessTotal(a[1..], b[1..]);
      if a[1..] == b[1..] {
        assert a == [a[0]] + a[1..] && b == [b[0]] + b[1..];
      }
    }
  }

  lemma {:induction false} StrLessAsymmetric(a: string, b: string)
    ensures !(StrLess(a, b) && StrLess(b, a))
  {
    if StrLess(a, b) && StrLess(b, a) {
      StrLessTransitive(a, b, a);
      StrLessIrreflexive(a);
    }
  }

  /** Insertion before the first entry whose name is not smaller: stable. */
  function Insert(x: (string, Value), s: Dict): (r: Dict)
    ensures multiset(r) == multiset([x] + s)
  {
    if s == [] || !StrLess(s[0].0, x.0) then [x] + s
    else
      assert s == [s[0]] + s[1..];
      [s[0]] + Insert(x, s[1..])
  }

  function SortByName(d: Dict): (r: Dict)
    ensures multiset(r) == multiset(d)
  {
    if d == [] then []
    else
      assert d == [d[0]] + d[1..];
      Insert(d[0], SortByName(d[1..]))
  }

  /** Strictly ascending names. */
  predicate StrictlyByName(s: Dict) {
    forall i, j | 0 <= i < j < |s| :: StrLess(s[i].0, s[j].0)
  }

  /** A lower bound of `x` and of every name in `s` bounds every name of `Insert(x, s)`. */
  lemma {:induction false} InsertAbove(x: (string, Value), s: Dict, lo: string)
    requires StrLess(lo, x.0)
    requires forall k | 0 <= k < |s| :: StrLess(lo, s[k].0)
    ensures forall k | 0 <= k < |Insert(x, s)| :: StrLess(lo, Insert(x, s)[k].0)
  {
    if s != [] && StrLess(s[0].0, x.0) {
      assert forall k | 0 <= k < |s[1..]| :: s[1..][k] == s[k + 1];
      InsertAbove(x, s[1..], lo);
    }
  }

  /** Putting a name below all of a strictly ascending sequence in front keeps it strictly ascending. */
  lemma {:induction false} ConsStrict(h: (string, Value), t: Dict)
    requires StrictlyByName(t)
    requires forall k | 0 <= k < |t| :: StrLess(h.0, t[k].0)
    ensures StrictlyByName([h] + t)
  {
    var r := [h] + t;
    forall i, j | 0 <= i < j < |r| ensures StrLess(r[i].0, r[j].0) {
      if i == 0 {
        assert r[j] == t[j - 1];
      } else {
        assert r[i] == t[i - 1] && r[j] == t[j - 1];
      }
    }
  }

  lemma {:induction false} InsertStrict(x: (string, Value), s: Dict)
    requires StrictlyByName(s)
    requires forall k | 0 <= k < |s| :: s[k].0 != x.0
    ensures StrictlyByName(Insert(x, s))
  {
    if s == [] || !StrLess(s[0].0, x.0) {
      if s != [] {
        StrLessTotal(x.0, s[0].0);
        forall j | 0 < j < |s| ensures StrLess(x.0, s[j].0) {
          StrLessTransitive(x.0, s[0].0, s[j].0);
        }
      }
      ConsStrict(x, s);
    } else {
      assert forall i, j | 0 <= i < j < |s[1..]| :: s[1..][i] == s[i + 1] && s[1..][j] == s[j + 1];
      InsertStrict(x, s[1..]);
      InsertAbove(x, s[1..], s[0].0);
      ConsStrict(s[0], Insert(x, s[1..]));
    }
  }

  /** The sort of a dict with distinct names is strictly ascending. */
  lemma {:induction false} SortStrict(d: Dict)
    requires UniqueKeys(d)
    ensures StrictlyByName(SortByName(d))
  {
    if d != [] {
      var s := SortByName(d[1..]);
      assert UniqueKeys(d[1..]) by {
        forall i, j | 0 <= i < j < |d[1..]| ensures d[1..][i].0 != d[1..][j].0 {
          assert d[1..][i] == d[i + 1] && d[1..][j] == d[j + 1];
        }
      }
      SortStrict(d[1..]);
      forall k | 0 <= k < |s| ensures s[k].0 != d[0].0 {
        assert s[k] in multiset(s);
        assert s[k] in d[1..];
        var m :| 0 <= m < |d[1..]| && d[1..][m] == s[k];
        assert d[m + 1] == s[k];
      }
      InsertStrict(d[0], s);
    }
  }

  lemma {:induction false} StrictlyByNameTail(a: Dict)
    requires StrictlyByName(a) && a != []
    ensures StrictlyByName(a[1..])
    ensures forall y | y in a[1..] :: StrLess(a[0].0, y.0)
  {
    forall y | y in a[1..] ensures StrLess(a[0].0, y.0) {
      var i :| 0 <= i < |a[1..]| && a[1..][i] == y;
      assert a[i + 1] == y;
    }
    forall i, j | 0 <= i < j < |a[1..]| ensures StrLess(a[1..][i].0, a[1..][j].0) {
      assert a[1..][i] == a[i + 1] && a[1..][j] == a[j + 1];
    }
  }

  /** A strictly ascending sequence is fixed by its elements. */
  lemma {:induction false} StrictlyByNameUnique(a: Dict, b: Dict)
    requires StrictlyByName(a) && StrictlyByName(b)
    requires forall y :: y in a <==> y in b
    ensures a == b
  {
    assert a != [] ==> a[0] in b;
    assert b != [] ==> b[0] in a;
    if a != [] && b != [] {
      assert a == [a[0]] + a[1..] && b == [b[0]] + b[1..];
      StrictlyByNameTail(a);
      StrictlyByNameTail(b);
      StrLessIrreflexive(a[0].0);
      StrLessIrreflexive(b[0].0);
      assert a[0] == b[0] by {
        assert a[0] in b && b[0] in a;
        if a[0] != b[0] {
          StrLessAsymmetric(a[0].0, b[0].0);
        }
      }
      forall y ensures y in a[1..] <==> y in b[1..] {
        if y in a[1..] {
          assert y in a && y != a[0];
          assert y in b[1..];
        }
        if y in b[1..] {
          assert y in b && y != b[0];
          assert y in a[1..];
        }
      }
      StrictlyByNameUnique(a[1..], b[1..]);
    }
  }

  /** With distinct names, a dict's entries are exactly its key/value pairs. */
  lemma {:induction false} AsMapMembers(d: Dict)
    requires UniqueKeys(d)
    ensures forall y :: y in d <==> y.0 in AsMap(d) && AsMap(d)[y.0] == y.1
  {
    if d != [] {
      assert UniqueKeys(d[1..]) by {
        forall i, j | 0 <= i < j < |d[1..]| ensures d[1..][i].0 != d[1..][j].0 {
          assert d[1..][i] == d[i + 1] && d[1..][j] == d[j + 1];
        }
      }
      AsMapMembers(d[1..]);
      forall y ensures y in d <==> y.0 in AsMap(d) && AsMap(d)[y.0] == y.1 {
        if y in d[1..] {
          var i :| 0 <= i < |d[1..]| && d[1..][i] == y;
          assert d[i + 1] == y;
        }
        assert d == [d[0]] + d[1..];
      }
    }
  }

  // ---------------------------------------------------------------------
  // The whole file

  /** What `serialize` writes, or the exception it raises. */
  function Serialization(l: Layer): (r: Result<seq<byte>>)
  {
    var vars := SortByName(Variables(l, ""));
    var head :- EncodeHeader(l.className, l.revision, |vars|);
    var body :- EncodeRecords(vars);
    Success(head + body)
  }

  /** One iteration of the record loop of `serialize`. */
  method WriteRecord(name: string, value: Value) returns (r: Result<seq<byte>>)
    ensures r == EncodeRecord((name, value))
  {
    var nm :- EncodeString(name);
    if !value.Tensor? {
      return Failure(NO_SHAPE);
    }
    var shape := value.arr.shape;
    var rank :- PackU8(|shape|);
    var dims: seq<byte> := [];
    var j := 0;
    while j < |shape|
      invariant 0 <= j <= |shape|
      invariant PackDims(shape[..j]) == Success(dims)
    {
      EncodeAllSnoc(shape, j, PackDim);
      var d :- PackDim(shape[j]);
      dims := dims + d;
      j := j + 1;
    }
    assert shape[..j] == shape;
    var item := U8(ItemSize(value.arr.dtype));
    var count :- PackU32(Size(shape));
    return Success(nm + rank + dims + item + count + value.arr.data);
  }

  /** The header writes of `serialize`, in order. */
  method WriteHeader(className: string, revision: int, count: nat) returns (r: Result<seq<byte>>)
    ensures r == EncodeHeader(className, revision, count)
  {
    var out: seq<byte> := U32(BINARY_VERSION);
    var cls :- EncodeString(className);
    out := out + cls;
    var rev :- PackU32(revision);
    out := out + rev;
    var n :- PackU32(count);
    out := out + n;
    return Success(out);
  }

  /** The record loop of `serialize`: one record per entry, stopping at the first exception. */
  method WriteRecords(vars: Dict) returns (r: Result<seq<byte>>)
    ensures r == EncodeRecords(vars)
  {
    var out: seq<byte> := [];
    var i := 0;
    while i < |vars|
      invariant 0 <= i <= |vars|
      invariant EncodeRecords(vars[..i]) == Success(out)
    {
      EncodeAllSnoc(vars, i, EncodeRecord);
      var rec :- WriteRecord(vars[i].0, vars[i].1);
      out := out + rec;
      i := i + 1;
    }
    assert vars[..i] == vars;
    return Success(out);
  }

  /** `serialize(path)`: the header, then the records in name order. */
  method Serialize(l: Layer) returns (r: Result<seq<byte>>)
    ensures r == Serialization(l)
  {
    var vars := SortByName(Variables(l, ""));
    var head :- WriteHeader(l.className, l.revision, |vars|);
    var body :- WriteRecords(vars);
    return Success(head + body);
  }

  /** Whether `serialize` raises: exactly when some value cannot be packed or is `None`. */
  lemma {:induction false} SerializationSucceeds(l: Layer)
    ensures Serialization(l).Success? <==>
      && StringEncodable(l.className)
      && 0 <= l.revision < U32_LIMIT
      && |Variables(l, "")| < U32_LIMIT
      && forall e | e in Variables(l, "") :: RecordEncodable(e.0, e.1)
  {
    var vars := Variables(l, "");
    var sorted := SortByName(vars);
    assert |sorted| == |multiset(sorted)| == |multiset(vars)| == |vars|;
    EncodeRecordsSucceeds(sorted);
    assert forall e :: e in sorted <==> e in vars by {
      forall e ensures e in sorted <==> e in vars {
        assert e in sorted <==> e in multiset(sorted);
        assert e in vars <==> e in multiset(vars);
      }
    }
    if forall e | e in vars :: RecordEncodable(e.0, e.1) {
      forall i | 0 <= i < |sorted| ensures RecordEncodable(sorted[i].0, sorted[i].1) {
        assert sorted[i] in sorted;
      }
    }
    if forall i | 0 <= i < |sorted| :: RecordEncodable(sorted[i].0, sorted[i].1) {
      forall e | e in vars ensures RecordEncodable(e.0, e.1) {
        assert e in sorted;
        var i :| 0 <= i < |sorted| && sorted[i] == e;
      }
    }
  }

  /**
   * The file depends only on the class, the revision and the name-to-value
   * content of `variables()`, not on the order the visit found the leaves in:
   * the records are sorted and the names are distinct.
   */
  lemma {:induction false} SerializationByContent(l1: Layer, l2: Layer)
    requires l1.className == l2.className && l1.revision == l2.revision
    requires AsMap(Variables(l1, "")) == AsMap(Variables(l2, ""))
    ensures Serialization(l1) == Serialization(l2)
  {
    var d1, d2 := Variables(l1, ""), Variables(l2, "");
    VariablesSpec(l1, "");
    VariablesSpec(l2, "");
    AsMapMembers(d1);
    AsMapMembers(d2);
    var s1, s2 := SortByName(d1), SortByName(d2);
    SortStrict(d1);
    SortStrict(d2);
    forall y ensures y in s1 <==> y in s2 {
      assert y in s1 <==> y in multiset(s1);
      assert y in s2 <==> y in multiset(s2);
      assert y in d1 <==> y in multiset(d1);
      assert y in d2 <==> y in multiset(d2);
    }
    StrictlyByNameUnique(s1, s2);
  }

  // ---------------------------------------------------------------------
  // Reading the file back

  const TRUNCATED := "unexpected end of file"
  const BAD_STRING := "string without its terminating 0"
  const TRAILING := "bytes after the last record"

  /** A record as the file holds it: the dtype itself is not stored, only its item size. */
  datatype Record = Record(name: string, shape: seq<nat>, itemSize: nat, data: seq<byte>)

  datatype ModelFile = ModelFile(version: int, className: string, revision: int, records: seq<Record>)

  function TakeU8(b: seq<byte>): Result<(nat, seq<byte>)> {
    if |b| < 1 then Failure(TRUNCATED) else Success((b[0] as nat, b[1..]))
  }

  function TakeU16(b: seq<byte>): Result<(nat, seq<byte>)> {
    if |b| < 2 then Failure(TRUNCATED) else Success((ReadU16(b), b[2..]))
  }

  function TakeU32(b: seq<byte>): Result<(nat, seq<byte>)> {
    if |b| < 4 then Failure(TRUNCATED) else Success((ReadU32(b), b[4..]))
  }

  function Chars(bs: seq<byte>): (r: string)
    ensures |r| == |bs| && forall i | 0 <= i < |bs| :: r[i] as int == bs[i]
  {
    seq(|bs|, i requires 0 <= i < |bs| => bs[i] as char)
  }

  function TakeString(b: seq<byte>): Result<(string, seq<byte>)> {
    var n :- TakeU16(b);
    if n.0 == 0 || |n.1| < n.0 then Failure(TRUNCATED)
    else if n.1[n.0 - 1] != 0 then Failure(BAD_STRING)
    else Success((Chars(n.1[..n.0 - 1]), n.1[n.0..]))
  }

  function TakeDims(b: seq<byte>, rank: nat): Result<(seq<nat>, seq<byte>)> {
    if rank == 0 then Success(([], b))
    else
      var d :- TakeU32(b);
      var t :- TakeDims(d.1, rank - 1);
      Success(([d.0] + t.0, t.1))
  }

  /** The byte length of `count` items of `itemSize` bytes each. */
  function Span(count: nat, itemSize: nat): nat {
    count * itemSize
  }

  function TakeRecord(b: seq<byte>): Result<(Record, seq<byte>)> {
    var name :- TakeString(b);
    var rank :- TakeU8(name.1);
    var dims :- TakeDims(rank.1, rank.0);
    var item :- TakeU8(dims.1);
    var count :- TakeU32(item.1);
    var len := Span(count.0, item.0);
    if |count.1| < len then Failure(TRUNCATED)
    else Success((Record(name.0, dims.0, item.0, count.1[..len]), count.1[len..]))
  }

  function TakeRecords(b: seq<byte>, n: nat): Result<(seq<Record>, seq<byte>)>
    decreases n
  {
    if n == 0 then Success(([], b))
    else
      var r :- TakeRecord(b);
      var t :- TakeRecords(r.1, n - 1);
      Success(([r.0] + t.0, t.1))
  }

  /** Header, then as many records as the header announces, then nothing. */
  function ReadModel(b: seq<byte>): Result<ModelFile> {
    var version :- TakeU32(b);
    var cls :- TakeString(version.1);
    var revision :- TakeU32(cls.1);
    var count :- TakeU32(revision.1);
    var records :- TakeRecords(count.1, count.0);
    if records.1 != [] then Failure(TRAILING)
    else Success(ModelFile(version.0, cls.0, revision.0, records.0))
  }

  function RecordOf(e: (string, Value)): Record
    requires e.1.Tensor?
  {
    Record(e.0, e.1.arr.shape, ItemSize(e.1.arr.dtype), e.1.arr.data)
  }

  function RecordsOf(vs: Dict): seq<Record>
    requires forall i | 0 <= i < |vs| :: vs[i].1.Tensor?
  {
    if vs == [] then [] else [RecordOf(vs[0])] + RecordsOf(vs[1..])
  }

  lemma {:induction false} TakeU32Packed(x: int, rest: seq<byte>)
    requires PackU32(x).Success?
    ensures TakeU32(PackU32(x).value + rest) == Success((x, rest))
  {
    U32RoundTrip(x, rest);
    assert (U32(x) + rest)[4..] == rest;
  }

  lemma {:induction false} TakeStringEncoded(s: string, rest: seq<byte>)
    requires StringEncodable(s)
    ensures TakeString(EncodeString(s).value + rest) == Success((s, rest))
  {
    var e := EncodeString(s).value;
    var b := e + rest;
    U16RoundTrip(|s| + 1, b[2..]);
    assert b == U16(|s| + 1) + b[2..];
    var body := b[2..];
    assert body[..|s|] == e[2..|s| + 2];
    assert body[|s|] == 0;
    assert body[|s| + 1..] == rest;
    assert Chars(body[..|s|]) == s;
  }

  lemma {:induction false} TakeDimsPacked(shape: seq<nat>, rest: seq<byte>)
    requires PackDims(shape).Success?
    ensures TakeDims(PackDims(shape).value + rest, |shape|) == Success((shape, rest))
  {
    if shape == [] {
      assert PackDims(shape).value + rest == rest;
    } else {
      var h := PackDim(shape[0]);
      var tl := PackDims(shape[1..]);
      assert h.Success? && tl.Success?;
      var d, t := h.value, tl.value;
      assert PackDims(shape).value == d + t;
      TakeU32Packed(shape[0], t + rest);
      assert d + t + rest == d + (t + rest);
      TakeDimsPacked(shape[1..], rest);
      assert TakeU32(d + (t + rest)) == Success((shape[0], t + rest));
      assert TakeDims(t + rest, |shape| - 1) == Success((shape[1..], rest));
      assert [shape[0]] + shape[1..] == shape;
    }
  }

  /** The fields after the name read back: rank, dimensions, item size, count, bytes. */
  lemma {:induction false} TakeFieldsPacked(shape: seq<nat>, itemSize: nat, data: seq<byte>, rest: seq<byte>)
    requires |shape| < 256 && itemSize < 256 && Size(shape) < U32_LIMIT
    requires PackDims(shape).Success?
    requires |data| == Span(Size(shape), itemSize)
    ensures
      var b := U8(|shape|) + (PackDims(shape).value + (U8(itemSize) + (U32(Size(shape)) + (data + rest))));
      && TakeU8(b) == Success((|shape|, PackDims(shape).value + (U8(itemSize) + (U32(Size(shape)) + (data + rest)))))
      && TakeDims(b[1..], |shape|) == Success((shape, U8(itemSize) + (U32(Size(shape)) + (data + rest))))
      && TakeU8(U8(itemSize) + (U32(Size(shape)) + (data + rest))) == Success((itemSize, U32(Size(shape)) + (data + rest)))
      && TakeU32(U32(Size(shape)) + (data + rest)) == Success((Size(shape), data + rest))
  {
    var dims := PackDims(shape).value;
    var tail := U8(itemSize) + (U32(Size(shape)) + (data + rest));
    assert (U8(|shape|) + (dims + tail))[1..] == dims + tail;
    TakeDimsPacked(shape, tail);
    assert tail[1..] == U32(Size(shape)) + (data + rest);
    TakeU32Packed(Size(shape), data + rest);
  }

  lemma {:induction false} TakeRecordEncoded(e: (string, Value), rest: seq<byte>)
    requires RecordEncodable(e.0, e.1) && Consistent(e.1.arr)
    ensures EncodeRecord(e).Success?
    ensures TakeRecord(EncodeRecord(e).value + rest) == Success((RecordOf(e), rest))
  {
    EncodeRecordSucceeds(e);
    var a := e.1.arr;
    EncodeAllSucceeds(a.shape, PackDim);
    var item := ItemSize(a.dtype);
    var fields := U8(|a.shape|) + (PackDims(a.shape).value + (U8(item) + (U32(Size(a.shape)) + (a.data + rest))));
    assert EncodeRecord(e).value + rest == EncodeString(e.0).value + fields;
    TakeStringEncoded(e.0, fields);
    TakeFieldsPacked(a.shape, item, a.data, rest);
    assert (a.data + rest)[..|a.data|] == a.data;
    assert (a.data + rest)[|a.data|..] == rest;
  }

  predicate Writable(vs: Dict) {
    forall i | 0 <= i < |vs| :: RecordEncodable(vs[i].0, vs[i].1) && Consistent(vs[i].1.arr)
  }

  lemma {:induction false} TakeRecordsEncoded(vs: Dict, rest: seq<byte>)
    requires Writable(vs)
    ensures EncodeRecords(vs).Success?
    ensures TakeRecords(EncodeRecords(vs).value + rest, |vs|) == Success((RecordsOf(vs), rest))
  {
    EncodeRecordsSucceeds(vs);
    if vs == [] {
      assert EncodeRecords(vs).value + rest == rest;
    } else {
      var tail := vs[1..];
      assert Writable(tail) by {
        forall i | 0 <= i < |tail| ensures RecordEncodable(tail[i].0, tail[i].1) && Consistent(tail[i].1.arr) {
          assert tail[i] == vs[i + 1];
        }
      }
      TakeRecordsEncoded(tail, rest);
      var h := EncodeRecord(vs[0]).value;
      var t := EncodeRecords(tail).value;
      assert EncodeRecords(vs).value == h + t;
      TakeRecordEncoded(vs[0], t + rest);
      AppendAssoc(h, t, rest);
    }
  }

  lemma {:induction false} AppendAssoc(a: seq<byte>, b: seq<byte>, c: seq<byte>)
    ensures a + b + c == a + (b + c)
  {
  }

  /** The header reads back; what follows it is read as `count` records. */
  lemma {:induction false} ReadModelAfterHeader(className: string, revision: int, count: nat, body: seq<byte>)
    requires EncodeHeader(className, revision, count).Success?
    requires TakeRecords(body, count).Success? && TakeRecords(body, count).value.1 == []
    ensures ReadModel(EncodeHeader(className, revision, count).value + body)
         == Success(ModelFile(BINARY_VERSION, className, revision, TakeRecords(body, count).value.0))
  {
    var cls := EncodeString(className).value;
    var rev := PackU32(revision).value;
    var n := PackU32(count).value;
    var r2 := n + body;
    var r1 := rev + r2;
    var r0 := cls + r1;
    var file := EncodeHeader(className, revision, count).value + body;
    var version := U32(BINARY_VERSION);
    assert EncodeHeader(className, revision, count).value == version + cls + rev + n;
    AppendAssoc(version + cls + rev, n, body);
    AppendAssoc(version + cls, rev, r2);
    AppendAssoc(version, cls, r1);
    assert file == version + r0;
    U32RoundTrip(BINARY_VERSION, r0);
    assert file[4..] == r0;
    assert TakeU32(file) == Success((BINARY_VERSION, r0));
    TakeStringEncoded(className, r1);
    TakeU32Packed(revision, r2);
    TakeU32Packed(count, body);
  }

  /** Reading a header followed by records gives them back. */
  lemma {:induction false} ReadModelEncoded(className: string, revision: int, vs: Dict)
    requires EncodeHeader(className, revision, |vs|).Success?
    requires Writable(vs)
    ensures EncodeRecords(vs).Success?
    ensures ReadModel(EncodeHeader(className, revision, |vs|).value + EncodeRecords(vs).value)
         == Success(ModelFile(BINARY_VERSION, className, revision, RecordsOf(vs)))
  {
    TakeRecordsEncoded(vs, []);
    var body := EncodeRecords(vs).value;
    assert body + [] == body;
    ReadModelAfterHeader(className, revision, |vs|, body);
  }

  /**
   * Reading back what `serialize` wrote gives version 2, the class name, the
   * revision and one record per variable, in ascending name order, each with
   * its name, shape, item size and bytes.
   */
  lemma {:induction false} SerializeRoundTrip(l: Layer)
    requires Serialization(l).Success?
    requires forall e | e in Variables(l, "") :: e.1.Tensor? && Consistent(e.1.arr)
    ensures Writable(SortByName(Variables(l, "")))
    ensures ReadModel(Serialization(l).value)
      == Success(ModelFile(BINARY_VERSION, l.className, l.revision, RecordsOf(SortByName(Variables(l, "")))))
  {
    var vars := SortByName(Variables(l, ""));
    SerializationSucceeds(l);
    forall i | 0 <= i < |vars| ensures RecordEncodable(vars[i].0, vars[i].1) && Consistent(vars[i].1.arr) {
      assert vars[i] in multiset(vars);
    }
    ReadModelEncoded(l.className, l.revision, vars);
  }
}
