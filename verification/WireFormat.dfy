/** The messages of pb/core_lite.go on the wire, one by one: the tag bytes each decoder switches on, written out,
    and the field and integer type each value is stored as. Nothing here goes through the schemas' entries. */
module WireFormat {
  import opened Words
  import opened Wire
  import opened Records
  import opened WireFields
  import L = Leaves
  import E = Envelopes

  type MaybeNumber = E.Option<uint64>

  type MaybeBytes = E.Option<Bytes>

  /** A number behind its tag byte, or nothing. */
  function Number(tag: byte, u: MaybeNumber): seq<byte> {
    if u.None? then [] else [tag] + VarintBytes(u.value)
  }

  /** A string, bytes or message behind its tag byte, or nothing. */
  function Blob(tag: byte, b: MaybeBytes): seq<byte> {
    if b.None? then [] else [tag] + SliceBytes(b.value)
  }

  /** What an `int32` field holds afterwards: the low half of the varint, signed. */
  function As32(u: MaybeNumber): Value {
    if u.None? then Num(0) else Num(Int32(u.value))
  }

  function As64(u: MaybeNumber): Value {
    if u.None? then Num(0) else Num(Int64(u.value))
  }

  function AsData(b: MaybeBytes): Value {
    if b.None? then Data([]) else Data(b.value)
  }

  // ----- one field after another

  lemma NumberReads(fields: Fields, number: nat, u: uint64)
    requires 1 <= number <= 15 && number in fields && !fields[number].Blob?
    ensures |VarintBytes(u)| <= MAX_VARINT_LENGTH
    ensures
      ReadAll(fields, [TagByte(number, 0)] + VarintBytes(u), 0) ==
        Ok([Known(number, Num(if fields[number].I32? then Int32(u) else Int64(u)))])
  {
    hide ReadTag, VarintBytes, DecodeVarint;
    VarintAtMostTen(u);
    var s := [TagByte(number, 0)] + VarintBytes(u);
    TagReads(number, 0, VarintBytes(u));
    assert s[1..1 + |VarintBytes(u)|] == VarintBytes(u);
    VarintRoundTrip(u, s, 1);
    assert ReadAll(fields, s, |s|) == Ok([]);
    var v := Num(if fields[number].I32? then Int32(u) else Int64(u));
    assert ReadRecord(fields, s, 0) == Ok((Known(number, v), |s|));
    assert [Known(number, v)] + [] == [Known(number, v)];
  }

  /** `s` is accepted as a message with these values and no unknown bytes. */
  ghost predicate Reads(schema: L.Schema, s: seq<byte>, vs: seq<Value>) {
    |s| < TWO_63 && |vs| == |schema| && L.DecodeOnto(schema, L.Empty(schema), s) == Ok(L.Leaf(vs, []))
  }

  /** The bytes of one more field behind it store its value. */
  lemma FieldAppends(schema: L.Schema, vs: seq<Value>, s: Bytes, t: Bytes, number: nat, v: Value)
    requires Reads(schema, s, vs) && |s + t| < TWO_63
    requires 1 <= number <= |schema| && ReadAll(L.FieldsOf(schema), t, 0) == Ok([Known(number, v)])
    ensures Reads(schema, s + t, vs[number - 1 := v])
  {
    hide ReadAll, L.DecodeFrom, L.FieldsOf;
    var m := L.Leaf(vs, []);
    L.ConcatenationMerges(schema, L.Empty(schema), s, t);
    L.DecodeStoresRecords(schema, m, t, 0);
    var r := Known(number, v);
    assert [r][1..] == [];
    assert L.StoredAll(schema, L.Stored(m, r), []) == L.Stored(m, r);
  }

  lemma NothingAppends(schema: L.Schema, vs: seq<Value>, s: Bytes, number: nat, v: Value)
    requires Reads(schema, s, vs) && 1 <= number <= |schema| && vs[number - 1] == v
    ensures Reads(schema, s + [], vs[number - 1 := v])
  {
    assert s + [] == s && vs[number - 1 := v] == vs;
  }

  lemma NumberAppends(schema: L.Schema, vs: seq<Value>, s: Bytes, tag: byte, number: nat, u: MaybeNumber)
    requires Reads(schema, s, vs) && 1 <= number <= |schema| && vs[number - 1] == Num(0)
    requires !schema[number - 1].Blob? && tag == 8 * number && |s + Number(tag, u)| < TWO_63
    ensures Reads(schema, s + Number(tag, u), vs[number - 1 := if schema[number - 1].I32? then As32(u) else As64(u)])
  {
    hide Reads, VarintBytes;
    if u.None? {
      NothingAppends(schema, vs, s, number, Num(0));
    } else {
      NumberReads(L.FieldsOf(schema), number, u.value);
      FieldAppends(schema, vs, s, Number(tag, u), number, if schema[number - 1].I32? then As32(u) else As64(u));
    }
  }

  lemma TaggedSlice(tag: byte, number: nat, b: Bytes)
    requires number <= 15 && tag == 8 * number + 2
    ensures [tag] + SliceBytes(b) == RecordBytes(number, Data(b))
  {
  }

  lemma BlobAppends(schema: L.Schema, vs: seq<Value>, s: Bytes, tag: byte, number: nat, b: MaybeBytes)
    requires Reads(schema, s, vs) && 1 <= number <= |schema| && vs[number - 1] == Data([])
    requires schema[number - 1].Blob? && tag == 8 * number + 2 && |s + Blob(tag, b)| < TWO_63
    ensures Reads(schema, s + Blob(tag, b), vs[number - 1 := AsData(b)])
  {
    hide Reads, SliceBytes, RecordBytes;
    if b.None? {
      NothingAppends(schema, vs, s, number, Data([]));
    } else {
      TaggedSlice(tag, number, b.value);
      RecordReads(L.FieldsOf(schema), number, Data(b.value));
      FieldAppends(schema, vs, s, Blob(tag, b), number, Data(b.value));
    }
  }

  // ----- the flat messages

  lemma EmptyReads(schema: L.Schema, vs: seq<Value>)
    requires |vs| == |schema| && forall k :: 0 <= k < |vs| ==> vs[k] == L.Zero(schema[k])
    ensures Reads(schema, [], vs)
  {
    L.NothingDecodes(schema);
    assert L.Empty(schema).values == vs;
  }

  function NoticeBytes(code: MaybeNumber, message: MaybeBytes): seq<byte> {
    Number(0x08, code) + Blob(0x12, message)
  }

  function CancelBytes(code: MaybeNumber, message: MaybeBytes, port: MaybeNumber): seq<byte> {
    Number(0x08, code) + Blob(0x12, message) + Number(0x18, port)
  }

  function InitBytes(
    pushPort: MaybeNumber, temp: MaybeBytes, support: MaybeBytes, documents: MaybeBytes, key: MaybeBytes): seq<byte>
  {
    Number(0x08, pushPort) + Blob(0x12, temp) + Blob(0x1a, support) + Blob(0x22, documents) + Blob(0x2a, key)
  }

  function ReverseBytes(reversePort: MaybeNumber, payload: MaybeBytes): seq<byte> {
    Number(0x08, reversePort) + Blob(0x12, payload)
  }

  function RpcRequestBytes(path: MaybeBytes, payload: MaybeBytes): seq<byte> {
    Blob(0x0a, path) + Blob(0x12, payload)
  }

  function RpcResponseBytes(payload: MaybeBytes): seq<byte> {
    Blob(0x0a, payload)
  }

  function PushBytes(name: MaybeBytes, payload: MaybeBytes, reversePort: MaybeNumber): seq<byte> {
    Blob(0x0a, name) + Blob(0x12, payload) + Number(0x18, reversePort)
  }

  lemma NoticeReads(schema: L.Schema, code: MaybeNumber, message: MaybeBytes)
    requires schema == [I32, Kind.Blob] && |NoticeBytes(code, message)| < TWO_63
    ensures Reads(schema, NoticeBytes(code, message),
              [As32(code), AsData(message)])
  {
    hide Reads, Number, Blob, As32, As64, AsData;
    var vs, s: seq<byte> := [Num(0), Data([])], [];
    EmptyReads(schema, vs);
    NumberAppends(schema, vs, s, 0x08, 1, code);
    vs, s := vs[0 := As32(code)], s + Number(0x08, code);
    BlobAppends(schema, vs, s, 0x12, 2, message);
    assert [] + Number(0x08, code) == Number(0x08, code);
    assert vs[1 := AsData(message)] ==
      [As32(code), AsData(message)];
  }

  lemma CancelReads(schema: L.Schema, code: MaybeNumber, message: MaybeBytes, port: MaybeNumber)
    requires schema == [I32, Kind.Blob, I64] && |CancelBytes(code, message, port)| < TWO_63
    ensures Reads(schema, CancelBytes(code, message, port),
              [As32(code), AsData(message), As64(port)])
  {
    hide Reads, Number, Blob, As32, As64, AsData;
    var vs, s: seq<byte> := [Num(0), Data([]), Num(0)], [];
    EmptyReads(schema, vs);
    NumberAppends(schema, vs, s, 0x08, 1, code);
    vs, s := vs[0 := As32(code)], s + Number(0x08, code);
    BlobAppends(schema, vs, s, 0x12, 2, message);
    vs, s := vs[1 := AsData(message)], s + Blob(0x12, message);
    NumberAppends(schema, vs, s, 0x18, 3, port);
    assert [] + Number(0x08, code) == Number(0x08, code);
    assert vs[2 := As64(port)] ==
      [As32(code), AsData(message), As64(port)];
  }

  lemma InitReads(
    schema: L.Schema, pushPort: MaybeNumber, temp: MaybeBytes, support: MaybeBytes,
    documents: MaybeBytes, key: MaybeBytes)
    requires schema == [I64, Kind.Blob, Kind.Blob, Kind.Blob, Kind.Blob]
    requires |InitBytes(pushPort, temp, support, documents, key)| < TWO_63
    ensures Reads(schema, InitBytes(pushPort, temp, support, documents, key),
              [As64(pushPort), AsData(temp), AsData(support), AsData(documents), AsData(key)])
  {
    hide Reads, Number, Blob, As32, As64, AsData;
    var vs, s: seq<byte> := [Num(0), Data([]), Data([]), Data([]), Data([])], [];
    EmptyReads(schema, vs);
    NumberAppends(schema, vs, s, 0x08, 1, pushPort);
    vs, s := vs[0 := As64(pushPort)], s + Number(0x08, pushPort);
    BlobAppends(schema, vs, s, 0x12, 2, temp);
    vs, s := vs[1 := AsData(temp)], s + Blob(0x12, temp);
    BlobAppends(schema, vs, s, 0x1a, 3, support);
    vs, s := vs[2 := AsData(support)], s + Blob(0x1a, support);
    BlobAppends(schema, vs, s, 0x22, 4, documents);
    vs, s := vs[3 := AsData(documents)], s + Blob(0x22, documents);
    BlobAppends(schema, vs, s, 0x2a, 5, key);
    assert [] + Number(0x08, pushPort) == Number(0x08, pushPort);
    assert vs[4 := AsData(key)] ==
      [As64(pushPort), AsData(temp), AsData(support), AsData(documents), AsData(key)];
  }

  lemma ReverseReads(schema: L.Schema, reversePort: MaybeNumber, payload: MaybeBytes)
    requires schema == [I64, Kind.Blob] && |ReverseBytes(reversePort, payload)| < TWO_63
    ensures Reads(schema, ReverseBytes(reversePort, payload),
              [As64(reversePort), AsData(payload)])
  {
    hide Reads, Number, Blob, As32, As64, AsData;
    var vs, s: seq<byte> := [Num(0), Data([])], [];
    EmptyReads(schema, vs);
    NumberAppends(schema, vs, s, 0x08, 1, reversePort);
    vs, s := vs[0 := As64(reversePort)], s + Number(0x08, reversePort);
    BlobAppends(schema, vs, s, 0x12, 2, payload);
    assert [] + Number(0x08, reversePort) == Number(0x08, reversePort);
    assert vs[1 := AsData(payload)] ==
      [As64(reversePort), AsData(payload)];
  }

  lemma RpcRequestReads(schema: L.Schema, path: MaybeBytes, payload: MaybeBytes)
    requires schema == [Kind.Blob, Kind.Blob] && |RpcRequestBytes(path, payload)| < TWO_63
    ensures Reads(schema, RpcRequestBytes(path, payload),
              [AsData(path), AsData(payload)])
  {
    hide Reads, Number, Blob, As32, As64, AsData;
    var vs, s: seq<byte> := [Data([]), Data([])], [];
    EmptyReads(schema, vs);
    BlobAppends(schema, vs, s, 0x0a, 1, path);
    vs, s := vs[0 := AsData(path)], s + Blob(0x0a, path);
    BlobAppends(schema, vs, s, 0x12, 2, payload);
    assert [] + Blob(0x0a, path) == Blob(0x0a, path);
    assert vs[1 := AsData(payload)] ==
      [AsData(path), AsData(payload)];
  }

  lemma RpcResponseReads(schema: L.Schema, payload: MaybeBytes)
    requires schema == [Kind.Blob] && |RpcResponseBytes(payload)| < TWO_63
    ensures Reads(schema, RpcResponseBytes(payload),
              [AsData(payload)])
  {
    hide Reads, Number, Blob, As32, As64, AsData;
    var vs, s: seq<byte> := [Data([])], [];
    EmptyReads(schema, vs);
    BlobAppends(schema, vs, s, 0x0a, 1, payload);
    assert [] + Blob(0x0a, payload) == Blob(0x0a, payload);
    assert vs[0 := AsData(payload)] ==
      [AsData(payload)];
  }

  lemma PushReads(schema: L.Schema, name: MaybeBytes, payload: MaybeBytes, reversePort: MaybeNumber)
    requires schema == [Kind.Blob, Kind.Blob, I64] && |PushBytes(name, payload, reversePort)| < TWO_63
    ensures Reads(schema, PushBytes(name, payload, reversePort),
              [AsData(name), AsData(payload), As64(reversePort)])
  {
    hide Reads, Number, Blob, As32, As64, AsData;
    var vs, s: seq<byte> := [Data([]), Data([]), Num(0)], [];
    EmptyReads(schema, vs);
    BlobAppends(schema, vs, s, 0x0a, 1, name);
    vs, s := vs[0 := AsData(name)], s + Blob(0x0a, name);
    BlobAppends(schema, vs, s, 0x12, 2, payload);
    vs, s := vs[1 := AsData(payload)], s + Blob(0x12, payload);
    NumberAppends(schema, vs, s, 0x18, 3, reversePort);
    assert [] + Blob(0x0a, name) == Blob(0x0a, name);
    assert vs[2 := As64(reversePort)] ==
      [AsData(name), AsData(payload), As64(reversePort)];
  }

  // ----- the envelopes

  function PortOf(u: MaybeNumber): int64 {
    if u.None? then 0 else Int64(u.value)
  }

  /** An arm's record and a port behind it, whatever the arm's number and fields. */
  lemma ArmReads(schema: E.Schema, tag: byte, number: nat, payload: seq<byte>, vs: seq<Value>, port: MaybeNumber)
    requires E.WellShaped(schema) && number in schema.arms && tag == 8 * number + 2
    requires Reads(schema.arms[number], payload, vs) && (port.Some? ==> schema.hasPort)
    requires |[tag] + SliceBytes(payload) + Number(0x28, port)| < TWO_63
    ensures
      E.DecodeOnto(schema, E.EMPTY_ENVELOPE, [tag] + SliceBytes(payload) + Number(0x28, port)) ==
        Ok(E.Envelope(PortOf(port), E.Arm(number, E.Some(L.Leaf(vs, []))), []))
  {
    hide ReadAll, L.DecodeFrom, E.DecodeFrom, RecordBytes, VarintBytes, SliceBytes, E.FieldsOf;
    TaggedSlice(tag, number, payload);
    E.OneArmDecodes(schema, E.EMPTY_ENVELOPE, number, payload);
    var arm := [tag] + SliceBytes(payload);
    var m := E.Envelope(0, E.Arm(number, E.Some(L.Leaf(vs, []))), []);
    if port.None? {
      assert arm + [] == arm;
    } else {
      var t := Number(0x28, port);
      E.ConcatenationMerges(schema, E.EMPTY_ENVELOPE, arm, t);
      NumberReads(E.FieldsOf(schema), 5, port.value);
      E.DecodeStoresRecords(schema, m, t, 0);
      var r := Known(5, Num(Int64(port.value)));
      assert [r][1..] == [];
      assert E.StoredAll(schema, m, [r]) == E.Stored(schema, m, r);
    }
  }

  lemma InitOnWire(
    pushPort: MaybeNumber, temp: MaybeBytes, support: MaybeBytes, documents: MaybeBytes, key: MaybeBytes,
    outer: MaybeNumber)
    requires |InitBytes(pushPort, temp, support, documents, key)| < TWO_63
    requires |[0x0a] + SliceBytes(InitBytes(pushPort, temp, support, documents, key)) + Number(0x28, outer)| < TWO_63
    ensures
      E.DecodeOnto(E.REQUEST_SCHEMA, E.EMPTY_ENVELOPE,
        [0x0a] + SliceBytes(InitBytes(pushPort, temp, support, documents, key)) + Number(0x28, outer)) ==
        Ok(E.Envelope(PortOf(outer), E.Arm(1, E.Some(L.Leaf(
          [As64(pushPort), AsData(temp), AsData(support), AsData(documents), AsData(key)], []))), []))
  {
    hide Reads, InitBytes, SliceBytes, E.DecodeFrom;
    E.BothAreWellShaped();
    InitReads(E.REQUEST_SCHEMA.arms[1], pushPort, temp, support, documents, key);
    ArmReads(E.REQUEST_SCHEMA, 0x0a, 1, InitBytes(pushPort, temp, support, documents, key),
      [As64(pushPort), AsData(temp), AsData(support), AsData(documents), AsData(key)], outer);
  }

  lemma CancelOnWire(code: MaybeNumber, message: MaybeBytes, port: MaybeNumber, outer: MaybeNumber)
    requires |CancelBytes(code, message, port)| < TWO_63
    requires |[0x22] + SliceBytes(CancelBytes(code, message, port)) + Number(0x28, outer)| < TWO_63
    ensures
      E.DecodeOnto(E.REQUEST_SCHEMA, E.EMPTY_ENVELOPE,
        [0x22] + SliceBytes(CancelBytes(code, message, port)) + Number(0x28, outer)) ==
        Ok(E.Envelope(PortOf(outer), E.Arm(4, E.Some(L.Leaf(
          [As32(code), AsData(message), As64(port)], []))), []))
  {
    hide Reads, CancelBytes, SliceBytes, E.DecodeFrom;
    E.BothAreWellShaped();
    CancelReads(E.REQUEST_SCHEMA.arms[4], code, message, port);
    ArmReads(E.REQUEST_SCHEMA, 0x22, 4, CancelBytes(code, message, port),
      [As32(code), AsData(message), As64(port)], outer);
  }

  lemma RpcRequestOnWire(path: MaybeBytes, payload: MaybeBytes, outer: MaybeNumber)
    requires |RpcRequestBytes(path, payload)| < TWO_63
    requires |[0x52] + SliceBytes(RpcRequestBytes(path, payload)) + Number(0x28, outer)| < TWO_63
    ensures
      E.DecodeOnto(E.REQUEST_SCHEMA, E.EMPTY_ENVELOPE,
        [0x52] + SliceBytes(RpcRequestBytes(path, payload)) + Number(0x28, outer)) ==
        Ok(E.Envelope(PortOf(outer), E.Arm(10, E.Some(L.Leaf(
          [AsData(path), AsData(payload)], []))), []))
  {
    hide Reads, RpcRequestBytes, SliceBytes, E.DecodeFrom;
    E.BothAreWellShaped();
    RpcRequestReads(E.REQUEST_SCHEMA.arms[10], path, payload);
    ArmReads(E.REQUEST_SCHEMA, 0x52, 10, RpcRequestBytes(path, payload),
      [AsData(path), AsData(payload)], outer);
  }

  lemma ReverseResponseOnWire(reversePort: MaybeNumber, payload: MaybeBytes, outer: MaybeNumber)
    requires |ReverseBytes(reversePort, payload)| < TWO_63
    requires |[0x5a] + SliceBytes(ReverseBytes(reversePort, payload)) + Number(0x28, outer)| < TWO_63
    ensures
      E.DecodeOnto(E.REQUEST_SCHEMA, E.EMPTY_ENVELOPE,
        [0x5a] + SliceBytes(ReverseBytes(reversePort, payload)) + Number(0x28, outer)) ==
        Ok(E.Envelope(PortOf(outer), E.Arm(11, E.Some(L.Leaf(
          [As64(reversePort), AsData(payload)], []))), []))
  {
    hide Reads, ReverseBytes, SliceBytes, E.DecodeFrom;
    E.BothAreWellShaped();
    ReverseReads(E.REQUEST_SCHEMA.arms[11], reversePort, payload);
    ArmReads(E.REQUEST_SCHEMA, 0x5a, 11, ReverseBytes(reversePort, payload),
      [As64(reversePort), AsData(payload)], outer);
  }

  lemma ErrorOnWire(code: MaybeNumber, message: MaybeBytes)
    requires |NoticeBytes(code, message)| < TWO_63
    requires |[0x0a] + SliceBytes(NoticeBytes(code, message))| < TWO_63
    ensures
      E.DecodeOnto(E.RESPONSE_SCHEMA, E.EMPTY_ENVELOPE,
        [0x0a] + SliceBytes(NoticeBytes(code, message))) ==
        Ok(E.Envelope(0, E.Arm(1, E.Some(L.Leaf(
          [As32(code), AsData(message)], []))), []))
  {
    hide Reads, NoticeBytes, SliceBytes, E.DecodeFrom;
    E.BothAreWellShaped();
    NoticeReads(E.RESPONSE_SCHEMA.arms[1], code, message);
    ArmReads(E.RESPONSE_SCHEMA, 0x0a, 1, NoticeBytes(code, message),
      [As32(code), AsData(message)], E.None);
    var s := [0x0a] + SliceBytes(NoticeBytes(code, message));
    assert s + Number(0x28, E.None) == s;
  }

  lemma DoneOnWire(code: MaybeNumber, message: MaybeBytes)
    requires |NoticeBytes(code, message)| < TWO_63
    requires |[0x32] + SliceBytes(NoticeBytes(code, message))| < TWO_63
    ensures
      E.DecodeOnto(E.RESPONSE_SCHEMA, E.EMPTY_ENVELOPE,
        [0x32] + SliceBytes(NoticeBytes(code, message))) ==
        Ok(E.Envelope(0, E.Arm(6, E.Some(L.Leaf(
          [As32(code), AsData(message)], []))), []))
  {
    hide Reads, NoticeBytes, SliceBytes, E.DecodeFrom;
    E.BothAreWellShaped();
    NoticeReads(E.RESPONSE_SCHEMA.arms[6], code, message);
    ArmReads(E.RESPONSE_SCHEMA, 0x32, 6, NoticeBytes(code, message),
      [As32(code), AsData(message)], E.None);
    var s := [0x32] + SliceBytes(NoticeBytes(code, message));
    assert s + Number(0x28, E.None) == s;
  }

  lemma PushOnWire(name: MaybeBytes, payload: MaybeBytes, reversePort: MaybeNumber)
    requires |PushBytes(name, payload, reversePort)| < TWO_63
    requires |[0x3a] + SliceBytes(PushBytes(name, payload, reversePort))| < TWO_63
    ensures
      E.DecodeOnto(E.RESPONSE_SCHEMA, E.EMPTY_ENVELOPE,
        [0x3a] + SliceBytes(PushBytes(name, payload, reversePort))) ==
        Ok(E.Envelope(0, E.Arm(7, E.Some(L.Leaf(
          [AsData(name), AsData(payload), As64(reversePort)], []))), []))
  {
    hide Reads, PushBytes, SliceBytes, E.DecodeFrom;
    E.BothAreWellShaped();
    PushReads(E.RESPONSE_SCHEMA.arms[7], name, payload, reversePort);
    ArmReads(E.RESPONSE_SCHEMA, 0x3a, 7, PushBytes(name, payload, reversePort),
      [AsData(name), AsData(payload), As64(reversePort)], E.None);
    var s := [0x3a] + SliceBytes(PushBytes(name, payload, reversePort));
    assert s + Number(0x28, E.None) == s;
  }

  lemma RpcResponseOnWire(payload: MaybeBytes)
    requires |RpcResponseBytes(payload)| < TWO_63
    requires |[0x52] + SliceBytes(RpcResponseBytes(payload))| < TWO_63
    ensures
      E.DecodeOnto(E.RESPONSE_SCHEMA, E.EMPTY_ENVELOPE,
        [0x52] + SliceBytes(RpcResponseBytes(payload))) ==
        Ok(E.Envelope(0, E.Arm(10, E.Some(L.Leaf(
          [AsData(payload)], []))), []))
  {
    hide Reads, RpcResponseBytes, SliceBytes, E.DecodeFrom;
    E.BothAreWellShaped();
    RpcResponseReads(E.RESPONSE_SCHEMA.arms[10], payload);
    ArmReads(E.RESPONSE_SCHEMA, 0x52, 10, RpcResponseBytes(payload),
      [AsData(payload)], E.None);
    var s := [0x52] + SliceBytes(RpcResponseBytes(payload));
    assert s + Number(0x28, E.None) == s;
  }

  // ----- written messages: the same bytes, zero values left out

  function Given(n: int64): MaybeNumber {
    if n == 0 then E.None else E.Some(Uint64(n))
  }

  function GivenBytes(b: Bytes): MaybeBytes {
    if b == [] then E.None else E.Some(b)
  }

  lemma FieldWritten(number: nat, v: Value)
    requires number <= 15
    ensures L.FieldBytes(number, v) ==
      match v
      case Num(n) => Number(8 * number, Given(n))
      case Data(b) => Blob(8 * number + 2, GivenBytes(b))
  {
  }

  lemma NoticeWritten(schema: L.Schema, code: int32, message: Bytes, u: seq<byte>)
    requires |schema| == 2
    ensures L.Encode(schema, L.Leaf([Num(code), Data(message)], u)) ==
      NoticeBytes(Given(code), GivenBytes(message)) + u
  {
    hide L.FieldBytes, Number, Blob;
    var m := L.Leaf([Num(code), Data(message)], u);
    FieldWritten(1, Num(code));
    FieldWritten(2, Data(message));
    assert L.EncodeFrom(schema, m, 2) == u;
    assert L.EncodeFrom(schema, m, 1) == Blob(0x12, GivenBytes(message)) + L.EncodeFrom(schema, m, 2);
  }

  lemma CancelWritten(schema: L.Schema, code: int32, message: Bytes, port: int64, u: seq<byte>)
    requires |schema| == 3
    ensures L.Encode(schema, L.Leaf([Num(code), Data(message), Num(port)], u)) ==
      CancelBytes(Given(code), GivenBytes(message), Given(port)) + u
  {
    hide L.FieldBytes, Number, Blob;
    var m := L.Leaf([Num(code), Data(message), Num(port)], u);
    FieldWritten(1, Num(code));
    FieldWritten(2, Data(message));
    FieldWritten(3, Num(port));
    assert L.EncodeFrom(schema, m, 3) == u;
    assert L.EncodeFrom(schema, m, 2) == Number(0x18, Given(port)) + L.EncodeFrom(schema, m, 3);
    assert L.EncodeFrom(schema, m, 1) == Blob(0x12, GivenBytes(message)) + L.EncodeFrom(schema, m, 2);
  }

  lemma InitWritten(
    schema: L.Schema, pushPort: int64, temp: Bytes, support: Bytes, documents: Bytes, key: Bytes, u: seq<byte>)
    requires |schema| == 5
    ensures L.Encode(schema, L.Leaf([Num(pushPort), Data(temp), Data(support), Data(documents), Data(key)], u)) ==
      InitBytes(Given(pushPort), GivenBytes(temp), GivenBytes(support), GivenBytes(documents), GivenBytes(key)) + u
  {
    hide L.FieldBytes, Number, Blob;
    var m := L.Leaf([Num(pushPort), Data(temp), Data(support), Data(documents), Data(key)], u);
    FieldWritten(1, Num(pushPort));
    FieldWritten(2, Data(temp));
    FieldWritten(3, Data(support));
    FieldWritten(4, Data(documents));
    FieldWritten(5, Data(key));
    assert L.EncodeFrom(schema, m, 5) == u;
    assert L.EncodeFrom(schema, m, 4) == Blob(0x2a, GivenBytes(key)) + L.EncodeFrom(schema, m, 5);
    assert L.EncodeFrom(schema, m, 3) == Blob(0x22, GivenBytes(documents)) + L.EncodeFrom(schema, m, 4);
    assert L.EncodeFrom(schema, m, 2) == Blob(0x1a, GivenBytes(support)) + L.EncodeFrom(schema, m, 3);
    assert L.EncodeFrom(schema, m, 1) == Blob(0x12, GivenBytes(temp)) + L.EncodeFrom(schema, m, 2);
  }

  lemma ReverseWritten(schema: L.Schema, reversePort: int64, payload: Bytes, u: seq<byte>)
    requires |schema| == 2
    ensures L.Encode(schema, L.Leaf([Num(reversePort), Data(payload)], u)) ==
      ReverseBytes(Given(reversePort), GivenBytes(payload)) + u
  {
    hide L.FieldBytes, Number, Blob;
    var m := L.Leaf([Num(reversePort), Data(payload)], u);
    FieldWritten(1, Num(reversePort));
    FieldWritten(2, Data(payload));
    assert L.EncodeFrom(schema, m, 2) == u;
    assert L.EncodeFrom(schema, m, 1) == Blob(0x12, GivenBytes(payload)) + L.EncodeFrom(schema, m, 2);
  }

  lemma RpcRequestWritten(schema: L.Schema, path: Bytes, payload: Bytes, u: seq<byte>)
    requires |schema| == 2
    ensures L.Encode(schema, L.Leaf([Data(path), Data(payload)], u)) ==
      RpcRequestBytes(GivenBytes(path), GivenBytes(payload)) + u
  {
    hide L.FieldBytes, Number, Blob;
    var m := L.Leaf([Data(path), Data(payload)], u);
    FieldWritten(1, Data(path));
    FieldWritten(2, Data(payload));
    assert L.EncodeFrom(schema, m, 2) == u;
    assert L.EncodeFrom(schema, m, 1) == Blob(0x12, GivenBytes(payload)) + L.EncodeFrom(schema, m, 2);
  }

  lemma RpcResponseWritten(schema: L.Schema, payload: Bytes, u: seq<byte>)
    requires |schema| == 1
    ensures L.Encode(schema, L.Leaf([Data(payload)], u)) ==
      RpcResponseBytes(GivenBytes(payload)) + u
  {
    hide L.FieldBytes, Number, Blob;
    var m := L.Leaf([Data(payload)], u);
    FieldWritten(1, Data(payload));
    assert L.EncodeFrom(schema, m, 1) == u;
  }

  lemma PushWritten(schema: L.Schema, name: Bytes, payload: Bytes, reversePort: int64, u: seq<byte>)
    requires |schema| == 3
    ensures L.Encode(schema, L.Leaf([Data(name), Data(payload), Num(reversePort)], u)) ==
      PushBytes(GivenBytes(name), GivenBytes(payload), Given(reversePort)) + u
  {
    hide L.FieldBytes, Number, Blob;
    var m := L.Leaf([Data(name), Data(payload), Num(reversePort)], u);
    FieldWritten(1, Data(name));
    FieldWritten(2, Data(payload));
    FieldWritten(3, Num(reversePort));
    assert L.EncodeFrom(schema, m, 3) == u;
    assert L.EncodeFrom(schema, m, 2) == Number(0x18, Given(reversePort)) + L.EncodeFrom(schema, m, 3);
    assert L.EncodeFrom(schema, m, 1) == Blob(0x12, GivenBytes(payload)) + L.EncodeFrom(schema, m, 2);
  }

  lemma InitEncodes(
    pushPort: int64, temp: Bytes, support: Bytes, documents: Bytes, key: Bytes, u: seq<byte>, outer: int64,
    w: seq<byte>)
    ensures
      var leaf := L.Leaf([Num(pushPort), Data(temp), Data(support), Data(documents), Data(key)], u);
      var m := E.Envelope(outer, E.Arm(1, E.Some(leaf)), w);
      && E.Typed(E.REQUEST_SCHEMA, m)
      && E.Encode(E.REQUEST_SCHEMA, m) ==
         Number(0x28, Given(outer)) + [0x0a]
         + SliceBytes(InitBytes(
             Given(pushPort), GivenBytes(temp), GivenBytes(support), GivenBytes(documents), GivenBytes(key)) + u)
         + w
  {
    hide SliceBytes, L.EncodeFrom, InitBytes;
    E.BothAreWellShaped();
    InitWritten(E.REQUEST_SCHEMA.arms[1], pushPort, temp, support, documents, key, u);
  }

  lemma CancelEncodes(code: int32, message: Bytes, port: int64, u: seq<byte>, outer: int64, w: seq<byte>)
    ensures
      var leaf := L.Leaf([Num(code), Data(message), Num(port)], u);
      var m := E.Envelope(outer, E.Arm(4, E.Some(leaf)), w);
      && E.Typed(E.REQUEST_SCHEMA, m)
      && E.Encode(E.REQUEST_SCHEMA, m) ==
         Number(0x28, Given(outer)) + [0x22]
         + SliceBytes(CancelBytes(Given(code), GivenBytes(message), Given(port)) + u) + w
  {
    hide SliceBytes, L.EncodeFrom, CancelBytes;
    E.BothAreWellShaped();
    CancelWritten(E.REQUEST_SCHEMA.arms[4], code, message, port, u);
  }

  lemma RpcRequestEncodes(path: Bytes, payload: Bytes, u: seq<byte>, outer: int64, w: seq<byte>)
    ensures
      var leaf := L.Leaf([Data(path), Data(payload)], u);
      var m := E.Envelope(outer, E.Arm(10, E.Some(leaf)), w);
      && E.Typed(E.REQUEST_SCHEMA, m)
      && E.Encode(E.REQUEST_SCHEMA, m) ==
         Number(0x28, Given(outer)) + [0x52]
         + SliceBytes(RpcRequestBytes(GivenBytes(path), GivenBytes(payload)) + u) + w
  {
    hide SliceBytes, L.EncodeFrom, RpcRequestBytes;
    E.BothAreWellShaped();
    RpcRequestWritten(E.REQUEST_SCHEMA.arms[10], path, payload, u);
  }

  lemma ReverseResponseEncodes(reversePort: int64, payload: Bytes, u: seq<byte>, outer: int64, w: seq<byte>)
    ensures
      var leaf := L.Leaf([Num(reversePort), Data(payload)], u);
      var m := E.Envelope(outer, E.Arm(11, E.Some(leaf)), w);
      && E.Typed(E.REQUEST_SCHEMA, m)
      && E.Encode(E.REQUEST_SCHEMA, m) ==
         Number(0x28, Given(outer)) + [0x5a]
         + SliceBytes(ReverseBytes(Given(reversePort), GivenBytes(payload)) + u) + w
  {
    hide SliceBytes, L.EncodeFrom, ReverseBytes;
    E.BothAreWellShaped();
    ReverseWritten(E.REQUEST_SCHEMA.arms[11], reversePort, payload, u);
  }

  lemma ErrorEncodes(code: int32, message: Bytes, u: seq<byte>, w: seq<byte>)
    ensures
      var leaf := L.Leaf([Num(code), Data(message)], u);
      var m := E.Envelope(0, E.Arm(1, E.Some(leaf)), w);
      && E.Typed(E.RESPONSE_SCHEMA, m)
      && E.Encode(E.RESPONSE_SCHEMA, m) ==
         [0x0a]
         + SliceBytes(NoticeBytes(Given(code), GivenBytes(message)) + u) + w
  {
    hide SliceBytes, L.EncodeFrom, NoticeBytes;
    E.BothAreWellShaped();
    NoticeWritten(E.RESPONSE_SCHEMA.arms[1], code, message, u);
  }

  lemma DoneEncodes(code: int32, message: Bytes, u: seq<byte>, w: seq<byte>)
    ensures
      var leaf := L.Leaf([Num(code), Data(message)], u);
      var m := E.Envelope(0, E.Arm(6, E.Some(leaf)), w);
      && E.Typed(E.RESPONSE_SCHEMA, m)
      && E.Encode(E.RESPONSE_SCHEMA, m) ==
         [0x32]
         + SliceBytes(NoticeBytes(Given(code), GivenBytes(message)) + u) + w
  {
    hide SliceBytes, L.EncodeFrom, NoticeBytes;
    E.BothAreWellShaped();
    NoticeWritten(E.RESPONSE_SCHEMA.arms[6], code, message, u);
  }

  lemma PushEncodes(name: Bytes, payload: Bytes, reversePort: int64, u: seq<byte>, w: seq<byte>)
    ensures
      var leaf := L.Leaf([Data(name), Data(payload), Num(reversePort)], u);
      var m := E.Envelope(0, E.Arm(7, E.Some(leaf)), w);
      && E.Typed(E.RESPONSE_SCHEMA, m)
      && E.Encode(E.RESPONSE_SCHEMA, m) ==
         [0x3a]
         + SliceBytes(PushBytes(GivenBytes(name), GivenBytes(payload), Given(reversePort)) + u) + w
  {
    hide SliceBytes, L.EncodeFrom, PushBytes;
    E.BothAreWellShaped();
    PushWritten(E.RESPONSE_SCHEMA.arms[7], name, payload, reversePort, u);
  }

  lemma RpcResponseEncodes(payload: Bytes, u: seq<byte>, w: seq<byte>)
    ensures
      var leaf := L.Leaf([Data(payload)], u);
      var m := E.Envelope(0, E.Arm(10, E.Some(leaf)), w);
      && E.Typed(E.RESPONSE_SCHEMA, m)
      && E.Encode(E.RESPONSE_SCHEMA, m) ==
         [0x52]
         + SliceBytes(RpcResponseBytes(GivenBytes(payload)) + u) + w
  {
    hide SliceBytes, L.EncodeFrom, RpcResponseBytes;
    E.BothAreWellShaped();
    RpcResponseWritten(E.RESPONSE_SCHEMA.arms[10], payload, u);
  }

  // ----- what the envelopes do not have, and what they refuse

  lemma ForeignStores(schema: E.Schema, m: E.Envelope, f: Field)
    requires E.Ready(schema, m) && Valid(f) && f.number !in E.FieldsOf(schema) && |Encode(f)| < TWO_63
    ensures E.DecodeOnto(schema, m, Encode(f)) == Ok(m.(unknown := m.unknown + Encode(f)))
  {
    hide Encode, ReadRecord, Valid;
    ForeignFieldReads(E.FieldsOf(schema), f);
    assert E.DecodeFrom(schema, m.(unknown := m.unknown + Encode(f)), Encode(f), |Encode(f)|) ==
      Ok(m.(unknown := m.unknown + Encode(f)));
  }

  /** A Request keeps every field but 1, 4, 5, 10 and 11 as unknown bytes, a Response every field but 1, 6, 7
      and 10. */
  lemma ForeignFieldsOnWire(m: E.Envelope, f: Field)
    requires Valid(f) && |Encode(f)| < TWO_63
    ensures E.Ready(E.REQUEST_SCHEMA, m) && f.number !in {1, 4, 5, 10, 11} ==>
      E.DecodeOnto(E.REQUEST_SCHEMA, m, Encode(f)) == Ok(m.(unknown := m.unknown + Encode(f)))
    ensures E.Ready(E.RESPONSE_SCHEMA, m) && f.number !in {1, 6, 7, 10} ==>
      E.DecodeOnto(E.RESPONSE_SCHEMA, m, Encode(f)) == Ok(m.(unknown := m.unknown + Encode(f)))
  {
    hide E.DecodeFrom, Encode, Valid, E.Ready;
    if E.Ready(E.REQUEST_SCHEMA, m) && f.number !in {1, 4, 5, 10, 11} {
      ForeignStores(E.REQUEST_SCHEMA, m, f);
    }
    if E.Ready(E.RESPONSE_SCHEMA, m) && f.number !in {1, 6, 7, 10} {
      ForeignStores(E.RESPONSE_SCHEMA, m, f);
    }
  }

  lemma FrontTag(number: nat, wireType: nat, rest: seq<byte>)
    requires number < 0x2000_0000 && wireType < 8 && |TagBytes(number, wireType) + rest| < TWO_63
    ensures |TagBytes(number, wireType) + rest| > 0
    ensures
      var v := number * 8 + wireType;
      && DecodeVarint(TagBytes(number, wireType) + rest, 0) == Ok((v, |TagBytes(number, wireType)|))
      && v % 8 == wireType && v / 8 == number
  {
    hide DecodeVarint, VarintBytes;
    VarintAtStart(number * 8 + wireType, rest);
  }

  /** A refused tag, at the front of any input. */
  lemma TagRefused(fields: Fields, number: nat, wireType: nat, rest: seq<byte>)
    requires number < 0x2000_0000 && wireType < 8 && |TagBytes(number, wireType) + rest| < TWO_63
    ensures |TagBytes(number, wireType) + rest| > 0
    ensures wireType == 4 ==> ReadRecord(fields, TagBytes(number, wireType) + rest, 0) == Err(EndGroup)
    ensures wireType != 4 && number == 0 ==>
      ReadRecord(fields, TagBytes(number, wireType) + rest, 0) == Err(IllegalTag)
    ensures wireType != 4 && number in fields && number > 0 && wireType != (if fields[number].Blob? then 2 else 0) ==>
      ReadRecord(fields, TagBytes(number, wireType) + rest, 0) == Err(WrongWireType)
  {
    hide DecodeVarint, TagBytes, ReadValue, UnknownEnd;
    FrontTag(number, wireType, rest);
  }

  lemma UnknownTypeRefused(fields: Fields, number: nat, wireType: nat, rest: seq<byte>)
    requires 1 <= number < 0x2000_0000 && 6 <= wireType < 8 && |TagBytes(number, wireType) + rest| < TWO_63
    requires number !in fields
    ensures |TagBytes(number, wireType) + rest| > 0
    ensures ReadRecord(fields, TagBytes(number, wireType) + rest, 0) == Err(IllegalWireType)
  {
    hide DecodeVarint, TagBytes, ReadValue;
    FrontTag(number, wireType, rest);
    var s := TagBytes(number, wireType) + rest;
    assert s[0..] == s;
  }

  /** The decoder of a Request refuses an end of group, field zero, and each of its fields under another wire
      type than its own. */
  lemma RequestRefuses(m: E.Envelope, number: nat, wireType: nat, rest: seq<byte>)
    requires E.Ready(E.REQUEST_SCHEMA, m) && number < 0x2000_0000 && wireType < 8
    requires |TagBytes(number, wireType) + rest| < TWO_63
    ensures
      var r := E.DecodeOnto(E.REQUEST_SCHEMA, m, TagBytes(number, wireType) + rest);
      && (wireType == 4 ==> r == Err(EndGroup))
      && (wireType != 4 && number == 0 ==> r == Err(IllegalTag))
      && (wireType != 4 && wireType != 2 && number in {1, 4, 10, 11} ==> r == Err(WrongWireType))
      && (wireType != 4 && wireType != 0 && number == 5 ==> r == Err(WrongWireType))
      && ((wireType == 6 || wireType == 7) && number > 0 && number !in {1, 4, 5, 10, 11} ==> r == Err(IllegalWireType))
  {
    hide TagBytes, ReadRecord, E.Ready, E.Stored;
    E.BothAreWellShaped();
    TagRefused(E.FieldsOf(E.REQUEST_SCHEMA), number, wireType, rest);
    if 6 <= wireType && number > 0 && number !in {1, 4, 5, 10, 11} {
      UnknownTypeRefused(E.FieldsOf(E.REQUEST_SCHEMA), number, wireType, rest);
    }
  }
}
