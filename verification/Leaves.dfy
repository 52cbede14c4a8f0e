/** The flat messages of pb/core_lite.go. The generated methods of Error, Cancel, Done, Init,
    ReverseResponse, RpcRequest, RpcResponse and Push are one template over the field kinds; their field
    numbers run from 1 upwards, so a schema lists the kinds in that order. */
module Leaves {
  import opened Words
  import opened Wire
  import opened Records

  /** Field numbers up to 15 have one-byte tags. */
  type Schema = s: seq<Kind> | |s| <= 15

  const ERROR_SCHEMA: Schema := [I32, Blob]
  const DONE_SCHEMA: Schema := [I32, Blob]
  const CANCEL_SCHEMA: Schema := [I32, Blob, I64]
  const INIT_SCHEMA: Schema := [I64, Blob, Blob, Blob, Blob]
  const REVERSE_RESPONSE_SCHEMA: Schema := [I64, Blob]
  const RPC_REQUEST_SCHEMA: Schema := [Blob, Blob]
  const RPC_RESPONSE_SCHEMA: Schema := [Blob]
  const PUSH_SCHEMA: Schema := [Blob, Blob, I64]

  /** Field `k` of the schema is `values[k]` and has number `k + 1`. */
  datatype Leaf = Leaf(values: seq<Value>, unknown: seq<byte>)

  function NumbersUpTo(n: nat): (numbers: set<int>)
    ensures forall k :: k in numbers <==> 1 <= k <= n
  {
    if n == 0 then {} else NumbersUpTo(n - 1) + {n}
  }

  function FieldsOf(schema: Schema): (f: Fields)
    ensures forall n :: n in f <==> 1 <= n <= |schema|
    ensures forall n :: n in f ==> f[n] == schema[n - 1]
  {
    map n | n in NumbersUpTo(|schema|) :: schema[n - 1]
  }

  ghost predicate Typed(schema: Schema, m: Leaf) {
    |m.values| == |schema| && forall k :: 0 <= k < |schema| ==> HasKind(schema[k], m.values[k])
  }

  function Zero(kind: Kind): Value {
    if kind.Blob? then Data([]) else Num(0)
  }

  function Empty(schema: Schema): (m: Leaf)
    ensures Typed(schema, m)
  {
    Leaf(seq(|schema|, k requires 0 <= k < |schema| => Zero(schema[k])), [])
  }

  // ----- encoding

  /** A field as it appears in the output; zero values are left out. */
  function FieldBytes(number: nat, v: Value): seq<byte>
    requires number <= 15
  {
    if v == Num(0) || v == Data([]) then [] else RecordBytes(number, v)
  }

  /** Fields `k` and up in ascending order, then the unknown bytes. */
  function EncodeFrom(schema: Schema, m: Leaf, k: nat): seq<byte>
    requires |m.values| == |schema| && k <= |schema|
    decreases |schema| - k
  {
    if k == |schema| then m.unknown else FieldBytes(k + 1, m.values[k]) + EncodeFrom(schema, m, k + 1)
  }

  function Encode(schema: Schema, m: Leaf): seq<byte>
    requires |m.values| == |schema|
  {
    EncodeFrom(schema, m, 0)
  }

  // ----- decoding

  /** A record stored into the message: known fields are overwritten, unknown bytes appended. */
  function Stored(m: Leaf, r: Record): (m': Leaf)
    requires r.Known? ==> 1 <= r.number <= |m.values|
    ensures |m'.values| == |m.values|
  {
    match r
    case Known(number, v) => m.(values := m.values[number - 1 := v])
    case Other(raw) => m.(unknown := m.unknown + raw)
  }

  /** The loop of `UnmarshalVT` from index `i` on, on top of `m`. */
  function DecodeFrom(schema: Schema, m: Leaf, s: Bytes, i: nat): (r: Result<Leaf>)
    requires |m.values| == |schema| && i <= |s|
    ensures r.Ok? ==> |r.value.values| == |schema|
    decreases |s| - i
  {
    if i == |s| then Ok(m)
    else
      var next :- ReadRecord(FieldsOf(schema), s, i);
      DecodeFrom(schema, Stored(m, next.0), s, next.1)
  }

  function DecodeOnto(schema: Schema, m: Leaf, s: Bytes): (r: Result<Leaf>)
    requires |m.values| == |schema|
    ensures r.Ok? ==> |r.value.values| == |schema|
  {
    DecodeFrom(schema, m, s, 0)
  }

  // ----- what decoding means

  ghost predicate Storable(schema: Schema, rs: seq<Record>) {
    forall k :: 0 <= k < |rs| ==> Wellformed(FieldsOf(schema), rs[k])
  }

  ghost function StoredAll(schema: Schema, m: Leaf, rs: seq<Record>): (m': Leaf)
    requires |m.values| == |schema| && Storable(schema, rs)
    ensures |m'.values| == |schema|
    decreases |rs|
  {
    if rs == [] then m else StoredAll(schema, Stored(m, rs[0]), rs[1..])
  }

  lemma {:induction false} DecodeStoresRecords(schema: Schema, m: Leaf, s: Bytes, i: nat)
    requires |m.values| == |schema| && i <= |s|
    ensures
      var rs := ReadAll(FieldsOf(schema), s, i);
      DecodeFrom(schema, m, s, i) == if rs.Err? then Err(rs.error) else Ok(StoredAll(schema, m, rs.value))
    decreases |s| - i
  {
    hide ReadRecord, FieldsOf;
    if i < |s| {
      var r := ReadRecord(FieldsOf(schema), s, i);
      if r.Ok? {
        DecodeStoresRecords(schema, Stored(m, r.value.0), s, r.value.1);
        var rest := ReadAll(FieldsOf(schema), s, r.value.1);
        if rest.Ok? {
          assert ([r.value.0] + rest.value)[1..] == rest.value;
        }
      }
    }
  }

  /** The value of the newest record of a field, or `otherwise` when there is none. */
  ghost function Newest(rs: seq<Record>, number: int, otherwise: Value): Value {
    if rs == [] then otherwise
    else
      var last := rs[|rs| - 1];
      if last.Known? && last.number == number then last.value else Newest(rs[..|rs| - 1], number, otherwise)
  }

  lemma {:induction false} NewestFromFront(rs: seq<Record>, number: int, otherwise: Value)
    requires rs != []
    ensures Newest(rs, number, otherwise) ==
      Newest(rs[1..], number, if rs[0].Known? && rs[0].number == number then rs[0].value else otherwise)
  {
    if |rs| > 1 {
      NewestFromFront(rs[..|rs| - 1], number, otherwise);
      assert rs[..|rs| - 1][1..] == rs[1..][..|rs| - 2];
    } else {
      assert rs[..0] == [];
    }
  }

  lemma {:induction false} StoredIsNewest(schema: Schema, m: Leaf, rs: seq<Record>, k: nat)
    requires |m.values| == |schema| && Storable(schema, rs) && k < |schema|
    ensures StoredAll(schema, m, rs).values[k] == Newest(rs, k + 1, m.values[k])
    decreases |rs|
  {
    hide FieldsOf;
    if rs != [] {
      StoredIsNewest(schema, Stored(m, rs[0]), rs[1..], k);
      NewestFromFront(rs, k + 1, m.values[k]);
    }
  }

  lemma {:induction false} StoredKeepsUnknown(schema: Schema, m: Leaf, rs: seq<Record>)
    requires |m.values| == |schema| && Storable(schema, rs)
    ensures StoredAll(schema, m, rs).unknown == m.unknown + Raws(rs)
    decreases |rs|
  {
    hide FieldsOf;
    if rs != [] {
      StoredKeepsUnknown(schema, Stored(m, rs[0]), rs[1..]);
    }
  }

  /** An accepted input sets every field to its newest record and appends the unknown records in order. */
  lemma LastOneWins(schema: Schema, m: Leaf, s: Bytes)
    requires |m.values| == |schema| && DecodeOnto(schema, m, s).Ok?
    ensures ReadAll(FieldsOf(schema), s, 0).Ok?
    ensures
      var rs := ReadAll(FieldsOf(schema), s, 0).value;
      var m' := DecodeOnto(schema, m, s).value;
      && (forall k :: 0 <= k < |schema| ==> m'.values[k] == Newest(rs, k + 1, m.values[k]))
      && m'.unknown == m.unknown + Raws(rs)
  {
    hide ReadAll, DecodeFrom, FieldsOf;
    DecodeStoresRecords(schema, m, s, 0);
    var rs := ReadAll(FieldsOf(schema), s, 0).value;
    forall k | 0 <= k < |schema|
      ensures DecodeOnto(schema, m, s).value.values[k] == Newest(rs, k + 1, m.values[k])
    {
      StoredIsNewest(schema, m, rs, k);
    }
    StoredKeepsUnknown(schema, m, rs);
  }

  lemma {:induction false} StoredAllConcat(schema: Schema, m: Leaf, a: seq<Record>, b: seq<Record>)
    requires |m.values| == |schema| && Storable(schema, a) && Storable(schema, b)
    ensures Storable(schema, a + b)
    ensures StoredAll(schema, m, a + b) == StoredAll(schema, StoredAll(schema, m, a), b)
    decreases |a|
  {
    hide FieldsOf;
    if a == [] {
      assert a + b == b;
    } else {
      StoredAllConcat(schema, Stored(m, a[0]), a[1..], b);
      assert (a + b)[1..] == a[1..] + b;
    }
  }

  lemma {:induction false} DecodeMove(schema: Schema, m: Leaf, s: Bytes, t: Bytes, i: nat)
    requires |m.values| == |schema| && |s + t| < TWO_63 && i <= |t|
    ensures Shifted(DecodeFrom(schema, m, s + t, |s| + i), DecodeFrom(schema, m, t, i))
    decreases |t| - i
  {
    hide ReadRecord, FieldsOf;
    if i < |t| {
      ReadRecordMove(FieldsOf(schema), s, t, i);
      var r := ReadRecord(FieldsOf(schema), t, i);
      if r.Ok? {
        DecodeMove(schema, Stored(m, r.value.0), s, t, r.value.1);
      }
    }
  }

  lemma {:induction false} DecodeThrough(schema: Schema, m: Leaf, s: Bytes, t: Bytes, i: nat)
    requires |m.values| == |schema| && |s + t| < TWO_63 && i <= |s| && DecodeFrom(schema, m, s, i).Ok?
    ensures Shifted(DecodeFrom(schema, m, s + t, i), DecodeOnto(schema, DecodeFrom(schema, m, s, i).value, t))
    decreases |s| - i
  {
    hide ReadRecord, FieldsOf;
    if i < |s| {
      ReadRecordExtend(FieldsOf(schema), s, t, i);
      var r := ReadRecord(FieldsOf(schema), s, i).value;
      DecodeThrough(schema, Stored(m, r.0), s, t, r.1);
    } else {
      DecodeMove(schema, m, s, t, 0);
    }
  }

  /** If `s` is accepted, decoding `s + t` is decoding `t` on top of what `s` gave, errors included. */
  lemma ConcatenationMerges(schema: Schema, m: Leaf, s: Bytes, t: Bytes)
    requires |m.values| == |schema| && |s + t| < TWO_63 && DecodeOnto(schema, m, s).Ok?
    ensures Shifted(DecodeOnto(schema, m, s + t), DecodeOnto(schema, DecodeOnto(schema, m, s).value, t))
  {
    hide DecodeFrom, FieldsOf;
    DecodeThrough(schema, m, s, t, 0);
  }

  // ----- round trip

  /** The non-zero fields from `k` up, in order. */
  ghost function NonZero(schema: Schema, m: Leaf, k: nat): (rs: seq<Record>)
    requires Typed(schema, m) && k <= |schema|
    ensures Storable(schema, rs) && Raws(rs) == []
    decreases |schema| - k
  {
    hide FieldsOf;
    if k == |schema| then []
    else
      var rest := NonZero(schema, m, k + 1);
      if FieldBytes(k + 1, m.values[k]) == [] then rest else
      var all := [Known(k + 1, m.values[k])] + rest;
      assert all[1..] == rest;
      all
  }

  lemma Regrouped<T>(a: seq<T>, b: seq<T>, c: seq<T>)
    ensures a + (b + c) == (a + b) + c
  {
  }

  /** An encoded message reads as its non-zero fields, then whatever its unknown bytes read as. */
  lemma {:induction false} EncodedRecords(schema: Schema, m: Leaf, k: nat)
    requires Typed(schema, m) && k <= |schema| && |EncodeFrom(schema, m, k)| < TWO_63
    ensures |m.unknown| < TWO_63
    ensures
      var all, rest := ReadAll(FieldsOf(schema), EncodeFrom(schema, m, k), 0), ReadAll(FieldsOf(schema), m.unknown, 0);
      (all.Ok? <==> rest.Ok?) && (all.Ok? ==> all.value == NonZero(schema, m, k) + rest.value)
    decreases |schema| - k
  {
    hide ReadAll, RecordBytes, FieldsOf;
    if k < |schema| {
      var head, tail := FieldBytes(k + 1, m.values[k]), EncodeFrom(schema, m, k + 1);
      EncodedRecords(schema, m, k + 1);
      if head == [] {
        assert head + tail == tail;
      } else {
        RecordReads(FieldsOf(schema), k + 1, m.values[k]);
        ReadAllConcat(FieldsOf(schema), head, tail);
        var rest := ReadAll(FieldsOf(schema), m.unknown, 0);
        if rest.Ok? {
          var first, others := [Known(k + 1, m.values[k])], NonZero(schema, m, k + 1);
          assert NonZero(schema, m, k) == first + others;
          Regrouped(first, others, rest.value);
        }
      }
    }
  }

  lemma {:induction false} NonZeroRestores(schema: Schema, m: Leaf, k: nat, p: Leaf)
    requires Typed(schema, m) && k <= |schema| && |p.values| == |schema|
    requires forall j :: 0 <= j < k ==> p.values[j] == m.values[j]
    requires forall j :: k <= j < |schema| ==> p.values[j] == Zero(schema[j])
    ensures StoredAll(schema, p, NonZero(schema, m, k)) == p.(values := m.values)
    decreases |schema| - k
  {
    hide FieldsOf;
    if k == |schema| {
      assert p.values == m.values;
    } else {
      var p' := p.(values := p.values[k := m.values[k]]);
      NonZeroRestores(schema, m, k + 1, p');
      if FieldBytes(k + 1, m.values[k]) == [] {
        assert p' == p;
      } else {
        assert NonZero(schema, m, k)[1..] == NonZero(schema, m, k + 1);
        assert Stored(p, NonZero(schema, m, k)[0]) == p';
      }
    }
  }

  lemma {:induction false} AllOtherStores(schema: Schema, m: Leaf, rs: seq<Record>)
    requires |m.values| == |schema| && Storable(schema, rs) && AllOther(rs)
    ensures StoredAll(schema, m, rs) == m.(unknown := m.unknown + Raws(rs))
    decreases |rs|
  {
    hide FieldsOf;
    if rs != [] {
      assert AllOther(rs[1..]);
      AllOtherStores(schema, Stored(m, rs[0]), rs[1..]);
    } else {
      assert m.unknown + [] == m.unknown;
    }
  }

  /** Decoding an encoded message gives it back exactly when its unknown bytes are well-formed records of
      fields it does not have. */
  lemma RoundTripIff(schema: Schema, m: Leaf)
    requires Typed(schema, m) && |Encode(schema, m)| < TWO_63
    ensures |m.unknown| < TWO_63
    ensures DecodeOnto(schema, Empty(schema), Encode(schema, m)) == Ok(m) <==> UnknownOnly(FieldsOf(schema), m.unknown)
  {
    hide ReadAll, DecodeFrom, StoredAll, NonZero, Raws, FieldsOf;
    EncodedRecords(schema, m, 0);
    DecodeStoresRecords(schema, Empty(schema), Encode(schema, m), 0);
    var rest := ReadAll(FieldsOf(schema), m.unknown, 0);
    if rest.Ok? {
      var known := NonZero(schema, m, 0);
      StoredAllConcat(schema, Empty(schema), known, rest.value);
      NonZeroRestores(schema, m, 0, Empty(schema));
      StoredKeepsUnknown(schema, m.(unknown := []), rest.value);
      RawsOfRecords(FieldsOf(schema), m.unknown, 0);
      assert [] + Raws(rest.value) == Raws(rest.value);
      if AllOther(rest.value) {
        AllOtherStores(schema, m.(unknown := []), rest.value);
      }
    }
  }

  lemma NothingDecodes(schema: Schema)
    ensures DecodeOnto(schema, Empty(schema), []) == Ok(Empty(schema))
  {
  }
}
