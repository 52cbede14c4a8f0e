/** The generated methods of pb/core_lite.go as they run: marshalling fills a buffer from its end towards
    its start, unmarshalling loops over an index. */
module Codec {
  import opened Words
  import opened Wire
  import opened Records
  import L = Leaves
  import E = Envelopes

  // ----- sizes

  function FieldSize(v: Value): nat {
    match v
    case Num(n) => if n != 0 then 1 + VarintSize(Uint64(n)) else 0
    case Data(bytes) => if |bytes| > 0 then 1 + |bytes| + VarintSize(|bytes|) else 0
  }

  function SizeFrom(m: L.Leaf, k: nat): nat
    requires k <= |m.values|
    decreases |m.values| - k
  {
    if k == |m.values| then |m.unknown| else FieldSize(m.values[k]) + SizeFrom(m, k + 1)
  }

  /** `SizeVT` of a flat message. */
  function LeafSize(m: L.Leaf): nat {
    SizeFrom(m, 0)
  }

  function ArmSize(arm: E.Arm): nat {
    match arm
    case NoArm => 0
    case Arm(_, None) => 2
    case Arm(_, Some(leaf)) => 1 + LeafSize(leaf) + VarintSize(LeafSize(leaf))
  }

  /** `SizeVT` of an envelope. */
  function EnvelopeSize(schema: E.Schema, m: E.Envelope): nat {
    ArmSize(m.arm) + PortSize(schema, m) + |m.unknown|
  }

  lemma FieldSizeIsLength(number: nat, v: Value)
    requires number <= 15
    ensures FieldSize(v) == |L.FieldBytes(number, v)|
  {
    match v
    case Num(n) => VarintSizeIsLength(Uint64(n));
    case Data(bytes) => VarintSizeIsLength(|bytes|);
  }

  lemma {:induction false} SizeFromIsLength(schema: L.Schema, m: L.Leaf, k: nat)
    requires |m.values| == |schema| && k <= |schema|
    ensures SizeFrom(m, k) == |L.EncodeFrom(schema, m, k)|
    decreases |schema| - k
  {
    hide FieldSize, L.FieldBytes;
    if k < |schema| {
      SizeFromIsLength(schema, m, k + 1);
      FieldSizeIsLength(k + 1, m.values[k]);
    }
  }

  function PortSize(schema: E.Schema, m: E.Envelope): nat {
    if schema.hasPort && m.port != 0 then 1 + VarintSize(Uint64(m.port)) else 0
  }

  lemma PartSizes(schema: E.Schema, m: E.Envelope)
    requires E.Typed(schema, m)
    ensures ArmSize(m.arm) == |E.ArmBytes(schema, m.arm)|
    ensures PortSize(schema, m) == |E.PortBytes(schema, m)|
  {
    VarintSizeIsLength(Uint64(m.port));
    if m.arm.Arm? && m.arm.body.Some? {
      SizeFromIsLength(schema.arms[m.arm.number], m.arm.body.value, 0);
      VarintSizeIsLength(LeafSize(m.arm.body.value));
    }
  }

  /** The announced size of an envelope is the length of its encoding. */
  lemma EnvelopeSizeIsLength(schema: E.Schema, m: E.Envelope)
    requires E.Typed(schema, m)
    ensures EnvelopeSize(schema, m) == |E.Encode(schema, m)|
  {
    PartSizes(schema, m);
  }

  // ----- filling a buffer backwards

  /** `cur` is `was` with `s` between `i` and `end`. */
  ghost predicate Filled(cur: seq<byte>, was: seq<byte>, i: nat, end: nat, s: seq<byte>) {
    i + |s| == end <= |was| && cur == was[..i] + s + was[end..]
  }

  lemma FilledFurther(
    cur: seq<byte>, mid: seq<byte>, was: seq<byte>, j: nat, i: nat, end: nat, s: seq<byte>, t: seq<byte>)
    requires Filled(mid, was, i, end, t) && Filled(cur, mid, j, i, s)
    ensures Filled(cur, was, j, end, s + t)
  {
    assert mid[..j] == was[..j];
    assert mid[i..] == t + was[end..];
    assert was[..j] + s + (t + was[end..]) == was[..j] + (s + t) + was[end..];
  }

  /** `i -= len(s); copy(dAtA[i:], s)`. */
  method Prepend(buf: array<byte>, end: nat, s: seq<byte>) returns (i: nat)
    requires |s| <= end <= buf.Length
    modifies buf
    ensures Filled(buf[..], old(buf[..]), i, end, s)
  {
    i := end - |s|;
    for k := 0 to |s|
      invariant forall j :: 0 <= j < buf.Length && !(i <= j < i + k) ==> buf[j] == old(buf[j])
      invariant forall j :: 0 <= j < k ==> buf[i + j] == s[j]
    {
      buf[i + k] := s[k];
    }
  }

  /** The varint of `v` ends before `offset`; the result is where it starts. */
  method EncodeVarint(buf: array<byte>, offset: nat, v: uint64) returns (base: nat)
    requires VarintSize(v) <= offset <= buf.Length
    modifies buf
    ensures Filled(buf[..], old(buf[..]), base, offset, VarintBytes(v))
  {
    VarintSizeIsLength(v);
    hide VarintSize, VarintBytes;
    base := offset - VarintSize(v);
    var at, w := base, v;
    ghost var done: seq<byte> := [];
    while w >= 128
      invariant 0 <= w < TWO_64 && at == base + |done|
      invariant done + VarintBytes(w) == VarintBytes(v)
      invariant forall j :: 0 <= j < buf.Length && !(base <= j < at) ==> buf[j] == old(buf[j])
      invariant forall j :: 0 <= j < |done| ==> buf[base + j] == done[j]
      decreases w
    {
      LastBytes(done, w, v);
      buf[at] := w % 128 + 128;
      done := done + [w % 128 + 128];
      w := w / 128;
      at := at + 1;
    }
    LastByte(w);
    buf[at] := w;
    assert done + [w] == VarintBytes(v);
  }

  /** The bytes written so far and those of the rest of the value make up the whole varint. */
  lemma LastBytes(done: seq<byte>, w: nat, v: nat)
    requires w >= 128 && done + VarintBytes(w) == VarintBytes(v)
    ensures done + [w % 128 + 128] + VarintBytes(w / 128) == VarintBytes(v)
    ensures |done| + 1 < |VarintBytes(v)|
  {
    assert |VarintBytes(v)| == |done| + |VarintBytes(w)|;
  }

  lemma LastByte(w: nat)
    requires w < 128
    ensures VarintBytes(w) == [w]
  {
  }

  method PrependTag(buf: array<byte>, end: nat, tag: byte) returns (i: nat)
    requires 1 <= end <= buf.Length
    modifies buf
    ensures Filled(buf[..], old(buf[..]), i, end, [tag])
  {
    i := end - 1;
    buf[i] := tag;
  }

  /** Length and tag in front of a payload that is already in place. */
  method PrependHeader(buf: array<byte>, end: nat, tag: byte, length: uint64) returns (i: nat)
    requires 1 + VarintSize(length) <= end <= buf.Length
    modifies buf
    ensures Filled(buf[..], old(buf[..]), i, end, [tag] + VarintBytes(length))
  {
    VarintSizeIsLength(length);
    ghost var was := buf[..];
    var at := EncodeVarint(buf, end, length);
    ghost var mid := buf[..];
    i := PrependTag(buf, at, tag);
    FilledFurther(buf[..], mid, was, i, at, end, [tag], VarintBytes(length));
  }

  /** One field of `MarshalToSizedBufferVT`. */
  method PrependField(buf: array<byte>, end: nat, number: nat, v: Value) returns (i: nat)
    requires number <= 15 && FieldSize(v) <= end <= buf.Length
    modifies buf
    ensures Filled(buf[..], old(buf[..]), i, end, L.FieldBytes(number, v))
  {
    i := end;
    match v
    case Num(n) =>
      if n != 0 {
        i := PrependHeader(buf, end, TagByte(number, 0), Uint64(n));
      }
    case Data(bytes) =>
      if |bytes| > 0 {
        ghost var was := buf[..];
        var at := Prepend(buf, end, bytes);
        ghost var mid := buf[..];
        i := PrependHeader(buf, at, TagByte(number, 2), |bytes|);
        FilledFurther(buf[..], mid, was, i, at, end, [TagByte(number, 2)] + VarintBytes(|bytes|), bytes);
        assert [TagByte(number, 2)] + VarintBytes(|bytes|) + bytes == RecordBytes(number, v);
      }
  }

  /** `MarshalToSizedBufferVT` of a flat message into `buf[..end]`; the result is where it starts. */
  method PrependLeaf(buf: array<byte>, end: nat, schema: L.Schema, m: L.Leaf) returns (i: nat)
    requires |m.values| == |schema| && LeafSize(m) <= end <= buf.Length
    modifies buf
    ensures Filled(buf[..], old(buf[..]), i, end, L.Encode(schema, m))
  {
    hide FieldSize, SizeFrom, L.FieldBytes;
    ghost var was := buf[..];
    UnknownHasRoom(m);
    i := Prepend(buf, end, m.unknown);
    var k := |schema|;
    while k > 0
      invariant 0 <= k <= |schema|
      invariant Filled(buf[..], was, i, end, L.EncodeFrom(schema, m, k))
    {
      k := k - 1;
      FieldHasRoom(m, k);
      SizeFromIsLength(schema, m, k + 1);
      ghost var mid, at := buf[..], i;
      i := PrependField(buf, i, k + 1, m.values[k]);
      FilledFurther(buf[..], mid, was, i, at, end, L.FieldBytes(k + 1, m.values[k]), L.EncodeFrom(schema, m, k + 1));
    }
  }

  lemma UnknownHasRoom(m: L.Leaf)
    ensures |m.unknown| <= LeafSize(m)
  {
    SizesShrink(m, |m.values|);
  }

  lemma FieldHasRoom(m: L.Leaf, k: nat)
    requires k < |m.values|
    ensures FieldSize(m.values[k]) + SizeFrom(m, k + 1) <= LeafSize(m)
  {
    SizesShrink(m, k);
  }

  lemma {:induction false} SizesShrink(m: L.Leaf, k: nat)
    requires k <= |m.values|
    ensures SizeFrom(m, k) <= LeafSize(m)
    decreases k
  {
    if k > 0 {
      SizesShrink(m, k - 1);
    }
  }

  /** An embedded message: its bytes, then its length and tag in front. */
  method PrependMessage(buf: array<byte>, end: nat, tag: byte, schema: L.Schema, m: L.Leaf) returns (i: nat)
    requires |m.values| == |schema| && LeafSize(m) < TWO_63
    requires 1 + LeafSize(m) + VarintSize(LeafSize(m)) <= end <= buf.Length
    modifies buf
    ensures Filled(buf[..], old(buf[..]), i, end, [tag] + SliceBytes(L.Encode(schema, m)))
  {
    hide L.EncodeFrom, SizeFrom, VarintSize;
    SizeFromIsLength(schema, m, 0);
    ghost var was := buf[..];
    var at := PrependLeaf(buf, end, schema, m);
    ghost var mid := buf[..];
    i := PrependHeader(buf, at, tag, end - at);
    ghost var body := L.Encode(schema, m);
    FilledFurther(buf[..], mid, was, i, at, end, [tag] + VarintBytes(|body|), body);
    assert [tag] + VarintBytes(|body|) + body == [tag] + SliceBytes(body);
  }

  /** The oneof wrapper's `MarshalToSizedBufferVT`. */
  method PrependArm(buf: array<byte>, end: nat, schema: E.Schema, arm: E.Arm) returns (i: nat)
    requires E.WellShaped(schema) && E.ArmFits(schema, arm)
    requires ArmSize(arm) <= end <= buf.Length && ArmSize(arm) < TWO_63
    modifies buf
    ensures Filled(buf[..], old(buf[..]), i, end, E.ArmBytes(schema, arm))
  {
    i := end;
    if arm.Arm? {
      if arm.body.Some? {
        i := PrependMessage(buf, end, TagByte(arm.number, 2), schema.arms[arm.number], arm.body.value);
      } else {
        i := PrependHeader(buf, end, TagByte(arm.number, 2), 0);
        assert [TagByte(arm.number, 2)] + [0] == E.ArmBytes(schema, arm);
      }
    }
  }

  method PrependPort(buf: array<byte>, end: nat, schema: E.Schema, m: E.Envelope) returns (i: nat)
    requires PortSize(schema, m) <= end <= buf.Length
    modifies buf
    ensures Filled(buf[..], old(buf[..]), i, end, E.PortBytes(schema, m))
  {
    i := end;
    if schema.hasPort && m.port != 0 {
      i := PrependHeader(buf, end, TagByte(E.PORT_NUMBER, 0), Uint64(m.port));
    }
  }

  /** `MarshalToSizedBufferVT` of an envelope: unknown bytes last, then the arm, the port in front. */
  method PrependEnvelope(buf: array<byte>, end: nat, schema: E.Schema, m: E.Envelope) returns (i: nat)
    requires E.Typed(schema, m) && EnvelopeSize(schema, m) <= end <= buf.Length && EnvelopeSize(schema, m) < TWO_63
    modifies buf
    ensures Filled(buf[..], old(buf[..]), i, end, E.Encode(schema, m))
  {
    hide E.ArmBytes, E.PortBytes, ArmSize, PortSize;
    PartSizes(schema, m);
    ghost var was := buf[..];
    var at := Prepend(buf, end, m.unknown);
    ghost var mid := buf[..];
    i := PrependArm(buf, at, schema, m.arm);
    FilledFurther(buf[..], mid, was, i, at, end, E.ArmBytes(schema, m.arm), m.unknown);
    ghost var tail := E.ArmBytes(schema, m.arm) + m.unknown;
    mid, at := buf[..], i;
    i := PrependPort(buf, at, schema, m);
    FilledFurther(buf[..], mid, was, i, at, end, E.PortBytes(schema, m), tail);
    assert E.PortBytes(schema, m) + tail == E.Encode(schema, m);
  }

  /** `MarshalVT`: a buffer of the announced size is filled to its very start. */
  method Marshal(schema: E.Schema, m: E.Envelope) returns (data: seq<byte>)
    requires E.Typed(schema, m) && EnvelopeSize(schema, m) < TWO_63
    ensures data == E.Encode(schema, m) && |data| == EnvelopeSize(schema, m)
  {
    EnvelopeSizeIsLength(schema, m);
    var size := EnvelopeSize(schema, m);
    var buf := new byte[size](_ => 0);
    var i := PrependEnvelope(buf, size, schema, m);
    var n := size - i;
    data := buf[..n];
    assert buf[..] == buf[..n];
  }

  // ----- reading

  /** `UnmarshalVT` of a flat message on top of `onto`. */
  method UnmarshalLeaf(schema: L.Schema, onto: L.Leaf, data: Bytes) returns (r: Result<L.Leaf>)
    requires |onto.values| == |schema|
    ensures r == L.DecodeOnto(schema, onto, data)
  {
    var m, index := onto, 0;
    while index < |data|
      invariant 0 <= index <= |data| && |m.values| == |schema|
      invariant L.DecodeFrom(schema, m, data, index) == L.DecodeOnto(schema, onto, data)
    {
      var next := ReadRecord(L.FieldsOf(schema), data, index);
      if next.Err? {
        return Err(next.error);
      }
      m, index := L.Stored(m, next.value.0), next.value.1;
    }
    return Ok(m);
  }

  /** The `switch` of an envelope's loop, for a record that has been read. */
  method Store(schema: E.Schema, m: E.Envelope, r: Record) returns (res: Result<E.Envelope>)
    requires E.Ready(schema, m) && Wellformed(E.FieldsOf(schema), r)
    ensures res == E.Stored(schema, m, r)
  {
    match r
    case Other(raw) =>
      return Ok(m.(unknown := m.unknown + raw));
    case Known(number, v) =>
      if schema.hasPort && number == E.PORT_NUMBER {
        return Ok(m.(port := v.n));
      }
      var leaf := UnmarshalLeaf(schema.arms[number], E.Base(schema, m, number), v.bytes);
      if leaf.Err? {
        return Err(leaf.error);
      }
      return Ok(m.(arm := E.Arm(number, E.Some(leaf.value))));
  }

  /** `UnmarshalVT` of an envelope on top of `onto`. */
  method Unmarshal(schema: E.Schema, onto: E.Envelope, data: Bytes) returns (r: Result<E.Envelope>)
    requires E.Ready(schema, onto)
    ensures r == E.DecodeOnto(schema, onto, data)
  {
    hide E.Stored, E.FieldsOf, ReadRecord;
    var m, index := onto, 0;
    while index < |data|
      invariant 0 <= index <= |data| && E.Ready(schema, m)
      invariant E.DecodeFrom(schema, m, data, index) == E.DecodeOnto(schema, onto, data)
    {
      var next := ReadRecord(E.FieldsOf(schema), data, index);
      if next.Err? {
        return Err(next.error);
      }
      var stored := Store(schema, m, next.value.0);
      if stored.Err? {
        return Err(stored.error);
      }
      m, index := stored.value, next.value.1;
    }
    return Ok(m);
  }

  /** Marshal, then unmarshal into a fresh envelope: accepted and `EqualVT` exactly for clean unknown bytes. */
  method RoundTrip(schema: E.Schema, m: E.Envelope) returns (equal: bool)
    requires E.Typed(schema, m) && EnvelopeSize(schema, m) < TWO_63
    ensures |m.unknown| < TWO_63
    ensures m.arm.Arm? && m.arm.body.Some? ==> |m.arm.body.value.unknown| < TWO_63
    ensures equal <==> E.CleanUnknowns(schema, m)
  {
    EnvelopeSizeIsLength(schema, m);
    E.RoundTripIff(schema, m);
    var data := Marshal(schema, m);
    var back := Unmarshal(schema, E.EMPTY_ENVELOPE, data);
    equal := back.Ok? && E.EqualVT(schema, back.value, m);
  }
}
