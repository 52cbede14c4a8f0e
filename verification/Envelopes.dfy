/** The two envelopes of pb/core_lite.go, Request and Response: an optional port, a oneof of flat messages,
    and unknown bytes. Their generated methods differ only in the port and the table of arms. */
module Envelopes {
  import opened Words
  import opened Wire
  import opened Records
  import L = Leaves

  const PORT_NUMBER := 5

  datatype Schema = Schema(hasPort: bool, arms: map<int, L.Schema>)

  const REQUEST_SCHEMA := Schema(true,
    map[1 := L.INIT_SCHEMA, 4 := L.CANCEL_SCHEMA, 10 := L.RPC_REQUEST_SCHEMA, 11 := L.REVERSE_RESPONSE_SCHEMA])
  const RESPONSE_SCHEMA := Schema(false,
    map[1 := L.ERROR_SCHEMA, 6 := L.DONE_SCHEMA, 7 := L.PUSH_SCHEMA, 10 := L.RPC_RESPONSE_SCHEMA])

  ghost predicate WellShaped(schema: Schema) {
    && (forall n :: n in schema.arms ==> 1 <= n <= 15)
    && (schema.hasPort ==> PORT_NUMBER !in schema.arms)
  }

  lemma BothAreWellShaped()
    ensures WellShaped(REQUEST_SCHEMA) && WellShaped(RESPONSE_SCHEMA)
  {
  }

  /** The tag constants of the generated code. */
  lemma TagConstants()
    ensures TagByte(PORT_NUMBER, 0) == 0x28
    ensures TagByte(1, 2) == 0xa && TagByte(4, 2) == 0x22 && TagByte(10, 2) == 0x52 && TagByte(11, 2) == 0x5a
    ensures TagByte(1, 0) == 0x8 && TagByte(2, 2) == 0x12 && TagByte(3, 0) == 0x18
    ensures TagByte(3, 2) == 0x1a && TagByte(5, 2) == 0x2a
  {
  }

  datatype Option<+T> = None | Some(value: T)

  /** A set oneof arm whose message pointer is nil has body `None`. */
  datatype Arm = NoArm | Arm(number: int, body: Option<L.Leaf>)

  datatype Envelope = Envelope(port: int64, arm: Arm, unknown: seq<byte>)

  const EMPTY_ENVELOPE := Envelope(0, NoArm, [])

  function FieldsOf(schema: Schema): (f: Fields)
    ensures forall n :: n in f <==> n in schema.arms || (schema.hasPort && n == PORT_NUMBER)
    ensures forall n :: n in schema.arms && !(schema.hasPort && n == PORT_NUMBER) ==> f[n].Blob?
    ensures schema.hasPort ==> f[PORT_NUMBER].I64?
  {
    (map n | n in schema.arms :: Blob) + if schema.hasPort then map[PORT_NUMBER := I64] else map[]
  }

  ghost predicate ArmFits(schema: Schema, arm: Arm) {
    arm.Arm? ==>
      arm.number in schema.arms && (arm.body.Some? ==> L.Typed(schema.arms[arm.number], arm.body.value))
  }

  ghost predicate Typed(schema: Schema, m: Envelope) {
    WellShaped(schema) && ArmFits(schema, m.arm) && (!schema.hasPort ==> m.port == 0)
  }

  /** `UnmarshalVT` merges into the arm that is set, so that arm's message must not be nil. */
  predicate Ready(schema: Schema, m: Envelope) {
    m.arm.Arm? ==>
      m.arm.number in schema.arms && m.arm.body.Some? &&
      |m.arm.body.value.values| == |schema.arms[m.arm.number]|
  }

  // ----- encoding

  function PortBytes(schema: Schema, m: Envelope): seq<byte> {
    if schema.hasPort && m.port != 0 then RecordBytes(PORT_NUMBER, Num(m.port)) else []
  }

  function ArmBytes(schema: Schema, arm: Arm): seq<byte>
    requires arm.Arm? ==> arm.number in schema.arms && 1 <= arm.number <= 15
    requires arm.Arm? && arm.body.Some? ==> |arm.body.value.values| == |schema.arms[arm.number]|
  {
    match arm
    case NoArm => []
    case Arm(n, None) => [TagByte(n, 2), 0]
    case Arm(n, Some(leaf)) => [TagByte(n, 2)] + SliceBytes(L.Encode(schema.arms[n], leaf))
  }

  ghost function Encode(schema: Schema, m: Envelope): seq<byte>
    requires Typed(schema, m)
  {
    PortBytes(schema, m) + ArmBytes(schema, m.arm) + m.unknown
  }

  // ----- decoding

  /** What an arm record is decoded on top of: the same arm if it is set, a fresh message otherwise. */
  function Base(schema: Schema, m: Envelope, number: int): (leaf: L.Leaf)
    requires Ready(schema, m) && number in schema.arms
    ensures |leaf.values| == |schema.arms[number]|
  {
    if m.arm.Arm? && m.arm.number == number then m.arm.body.value else L.Empty(schema.arms[number])
  }

  function Stored(schema: Schema, m: Envelope, r: Record): (res: Result<Envelope>)
    requires Ready(schema, m) && Wellformed(FieldsOf(schema), r)
    ensures res.Ok? ==> Ready(schema, res.value)
  {
    match r
    case Other(raw) => Ok(m.(unknown := m.unknown + raw))
    case Known(n, v) =>
      if schema.hasPort && n == PORT_NUMBER then Ok(m.(port := v.n))
      else
        var leaf :- L.DecodeOnto(schema.arms[n], Base(schema, m, n), v.bytes);
        Ok(m.(arm := Arm(n, Some(leaf))))
  }

  function DecodeFrom(schema: Schema, m: Envelope, s: Bytes, i: nat): (r: Result<Envelope>)
    requires Ready(schema, m) && i <= |s|
    ensures r.Ok? ==> Ready(schema, r.value)
    decreases |s| - i
  {
    if i == |s| then Ok(m)
    else
      var next :- ReadRecord(FieldsOf(schema), s, i);
      var m' :- Stored(schema, m, next.0);
      DecodeFrom(schema, m', s, next.1)
  }

  function DecodeOnto(schema: Schema, m: Envelope, s: Bytes): (r: Result<Envelope>)
    requires Ready(schema, m)
    ensures r.Ok? ==> Ready(schema, r.value)
  {
    DecodeFrom(schema, m, s, 0)
  }

  // ----- what decoding means

  ghost predicate Storable(schema: Schema, rs: seq<Record>) {
    forall k :: 0 <= k < |rs| ==> Wellformed(FieldsOf(schema), rs[k])
  }

  ghost function StoredAll(schema: Schema, m: Envelope, rs: seq<Record>): (r: Result<Envelope>)
    requires Ready(schema, m) && Storable(schema, rs)
    ensures r.Ok? ==> Ready(schema, r.value)
    decreases |rs|
  {
    if rs == [] then Ok(m)
    else
      var m' :- Stored(schema, m, rs[0]);
      StoredAll(schema, m', rs[1..])
  }

  ghost function Outcome(schema: Schema, m: Envelope, rs: Result<seq<Record>>): Result<Envelope>
    requires Ready(schema, m) && (rs.Ok? ==> Storable(schema, rs.value))
  {
    if rs.Ok? then StoredAll(schema, m, rs.value) else Err(rs.error)
  }

  /** The interleaved loop accepts what reading everything first and then storing accepts, with one result. */
  lemma {:induction false} DecodeStoresRecords(schema: Schema, m: Envelope, s: Bytes, i: nat)
    requires Ready(schema, m) && i <= |s|
    ensures SameOutcome(DecodeFrom(schema, m, s, i), Outcome(schema, m, ReadAll(FieldsOf(schema), s, i)))
    decreases |s| - i
  {
    hide ReadRecord, Stored, FieldsOf;
    if i < |s| {
      var r := ReadRecord(FieldsOf(schema), s, i);
      if r.Ok? && Stored(schema, m, r.value.0).Ok? {
        DecodeStoresRecords(schema, Stored(schema, m, r.value.0).value, s, r.value.1);
      }
      var rest := ReadAll(FieldsOf(schema), s, i);
      if rest.Ok? {
        assert rest.value[1..] == ReadAll(FieldsOf(schema), s, r.value.1).value;
      }
    }
  }

  lemma {:induction false} StoredAllConcat(schema: Schema, m: Envelope, a: seq<Record>, b: seq<Record>)
    requires Ready(schema, m) && Storable(schema, a) && Storable(schema, b)
    ensures Storable(schema, a + b)
    ensures StoredAll(schema, m, a).Err? ==> StoredAll(schema, m, a + b).Err?
    ensures StoredAll(schema, m, a).Ok? ==>
      StoredAll(schema, m, a + b) == StoredAll(schema, StoredAll(schema, m, a).value, b)
    decreases |a|
  {
    hide Stored, FieldsOf;
    if a == [] {
      assert a + b == b;
    } else {
      assert (a + b)[1..] == a[1..] + b;
      if Stored(schema, m, a[0]).Ok? {
        StoredAllConcat(schema, Stored(schema, m, a[0]).value, a[1..], b);
      }
    }
  }

  lemma {:induction false} DecodeMove(schema: Schema, m: Envelope, s: Bytes, t: Bytes, i: nat)
    requires Ready(schema, m) && |s + t| < TWO_63 && i <= |t|
    ensures Shifted(DecodeFrom(schema, m, s + t, |s| + i), DecodeFrom(schema, m, t, i))
    decreases |t| - i
  {
    hide ReadRecord, FieldsOf, Stored;
    if i < |t| {
      ReadRecordMove(FieldsOf(schema), s, t, i);
      var r := ReadRecord(FieldsOf(schema), t, i);
      if r.Ok? && Stored(schema, m, r.value.0).Ok? {
        DecodeMove(schema, Stored(schema, m, r.value.0).value, s, t, r.value.1);
      }
    }
  }

  lemma {:induction false} DecodeThrough(schema: Schema, m: Envelope, s: Bytes, t: Bytes, i: nat)
    requires Ready(schema, m) && |s + t| < TWO_63 && i <= |s| && DecodeFrom(schema, m, s, i).Ok?
    ensures Shifted(DecodeFrom(schema, m, s + t, i), DecodeOnto(schema, DecodeFrom(schema, m, s, i).value, t))
    decreases |s| - i
  {
    hide ReadRecord, FieldsOf, Stored;
    if i < |s| {
      ReadRecordExtend(FieldsOf(schema), s, t, i);
      var r := ReadRecord(FieldsOf(schema), s, i).value;
      DecodeThrough(schema, Stored(schema, m, r.0).value, s, t, r.1);
    } else {
      DecodeMove(schema, m, s, t, 0);
    }
  }

  /** If `s` is accepted, decoding `s + t` is decoding `t` on top of what `s` gave, errors included. */
  lemma ConcatenationMerges(schema: Schema, m: Envelope, s: Bytes, t: Bytes)
    requires Ready(schema, m) && |s + t| < TWO_63 && DecodeOnto(schema, m, s).Ok?
    ensures Shifted(DecodeOnto(schema, m, s + t), DecodeOnto(schema, DecodeOnto(schema, m, s).value, t))
  {
    hide DecodeFrom, FieldsOf;
    DecodeThrough(schema, m, s, t, 0);
  }

  ghost function ArmRecord(number: nat, payload: Bytes): seq<byte>
    requires number <= 15
  {
    RecordBytes(number, Data(payload))
  }

  lemma OneArmDecodes(schema: Schema, m: Envelope, number: nat, payload: Bytes)
    requires WellShaped(schema) && Ready(schema, m) && number in schema.arms && |ArmRecord(number, payload)| < TWO_63
    ensures
      var body := L.DecodeOnto(schema.arms[number], Base(schema, m, number), payload);
      SameOutcome(DecodeOnto(schema, m, ArmRecord(number, payload)),
                  if body.Ok? then Ok(m.(arm := Arm(number, Some(body.value)))) else Err(body.error))
  {
    hide ReadAll, DecodeFrom, FieldsOf;
    RecordReads(FieldsOf(schema), number, Data(payload));
    DecodeStoresRecords(schema, m, ArmRecord(number, payload), 0);
    var r := Known(number, Data(payload));
    assert [r][1..] == [];
    assert StoredAll(schema, m, [r]) == Stored(schema, m, r);
  }

  /** A further arm record after an accepted input: the same arm is merged into, another arm replaced, the
      port and the unknown bytes are left alone. */
  lemma NextArm(schema: Schema, m: Envelope, s: Bytes, number: nat, payload: Bytes)
    requires WellShaped(schema) && Ready(schema, m) && number in schema.arms
    requires |s + ArmRecord(number, payload)| < TWO_63 && DecodeOnto(schema, m, s).Ok?
    ensures
      var m' := DecodeOnto(schema, m, s).value;
      var base := if m'.arm.Arm? && m'.arm.number == number then m'.arm.body.value else L.Empty(schema.arms[number]);
      var body := L.DecodeOnto(schema.arms[number], base, payload);
      SameOutcome(DecodeOnto(schema, m, s + ArmRecord(number, payload)),
                  if body.Ok? then Ok(m'.(arm := Arm(number, Some(body.value)))) else Err(body.error))
  {
    hide DecodeFrom, RecordBytes;
    ConcatenationMerges(schema, m, s, ArmRecord(number, payload));
    OneArmDecodes(schema, DecodeOnto(schema, m, s).value, number, payload);
  }

  /** Two records of one arm are one record with the payloads joined. */
  lemma SplitArmMerges(schema: Schema, m: Envelope, number: nat, p: Bytes, q: Bytes)
    requires WellShaped(schema) && Ready(schema, m) && number in schema.arms
    requires |p + q| < TWO_63 && |ArmRecord(number, p + q)| < TWO_63
    requires |ArmRecord(number, p) + ArmRecord(number, q)| < TWO_63
    requires L.DecodeOnto(schema.arms[number], Base(schema, m, number), p).Ok?
    ensures SameOutcome(DecodeOnto(schema, m, ArmRecord(number, p) + ArmRecord(number, q)),
                        DecodeOnto(schema, m, ArmRecord(number, p + q)))
  {
    hide DecodeFrom, RecordBytes, L.DecodeFrom;
    OneArmDecodes(schema, m, number, p);
    NextArm(schema, m, ArmRecord(number, p), number, q);
    OneArmDecodes(schema, m, number, p + q);
    L.ConcatenationMerges(schema.arms[number], Base(schema, m, number), p, q);
  }

  // ----- round trip

  /** `EqualVT` of two oneof arms: a nil message equals an empty one of the same arm. */
  predicate EqualArms(schema: Schema, a: Arm, b: Arm)
    requires (a.Arm? ==> a.number in schema.arms) && (b.Arm? ==> b.number in schema.arms)
  {
    if a.NoArm? || b.NoArm? then a.NoArm? && b.NoArm?
    else if a.number != b.number then false
    else
      var empty := L.Empty(schema.arms[a.number]);
      (if a.body.Some? then a.body.value else empty) == (if b.body.Some? then b.body.value else empty)
  }

  predicate EqualVT(schema: Schema, a: Envelope, b: Envelope)
    requires (a.arm.Arm? ==> a.arm.number in schema.arms) && (b.arm.Arm? ==> b.arm.number in schema.arms)
  {
    EqualArms(schema, a.arm, b.arm) && a.port == b.port && a.unknown == b.unknown
  }

  /** Value `k` of an arm's message, a nil message having zero values and no unknown bytes. */
  ghost function ArmValue(schema: Schema, arm: Arm, k: nat): Value
    requires arm.Arm? && arm.number in schema.arms && k < |schema.arms[arm.number]|
    requires arm.body.Some? ==> |arm.body.value.values| == |schema.arms[arm.number]|
  {
    match arm.body
    case Some(leaf) => leaf.values[k]
    case None => if schema.arms[arm.number][k].Blob? then Data([]) else Num(0)
  }

  ghost function ArmUnknown(arm: Arm): seq<byte> {
    if arm.Arm? && arm.body.Some? then arm.body.value.unknown else []
  }

  ghost predicate SameArmParts(schema: Schema, a: Arm, b: Arm)
    requires ArmFits(schema, a) && ArmFits(schema, b)
  {
    && (a.Arm? <==> b.Arm?)
    && (a.Arm? ==>
          && a.number == b.number && ArmUnknown(a) == ArmUnknown(b)
          && forall k :: 0 <= k < |schema.arms[a.number]| ==> ArmValue(schema, a, k) == ArmValue(schema, b, k))
  }

  /** Two envelopes are equal exactly if the ports, the unknown bytes, the arm set, and every field and the unknown
      bytes of its message agree. */
  lemma EqualVTIff(schema: Schema, a: Envelope, b: Envelope)
    requires ArmFits(schema, a.arm) && ArmFits(schema, b.arm)
    ensures EqualVT(schema, a, b) <==>
      a.port == b.port && a.unknown == b.unknown && SameArmParts(schema, a.arm, b.arm)
  {
    if a.arm.Arm? && b.arm.Arm? && a.arm.number == b.arm.number {
      var leaves := schema.arms[a.arm.number];
      var empty := L.Empty(leaves);
      assert forall k :: 0 <= k < |leaves| ==> empty.values[k] == if leaves[k].Blob? then Data([]) else Num(0);
      var x := if a.arm.body.Some? then a.arm.body.value else empty;
      var y := if b.arm.body.Some? then b.arm.body.value else empty;
      assert forall k :: 0 <= k < |leaves| ==>
        ArmValue(schema, a.arm, k) == x.values[k] && ArmValue(schema, b.arm, k) == y.values[k];
      assert x.values == y.values <==> forall k :: 0 <= k < |leaves| ==> x.values[k] == y.values[k];
    }
  }

  /** So it is an equivalence. */
  lemma EqualVTIsEquivalence(schema: Schema, a: Envelope, b: Envelope, c: Envelope)
    requires ArmFits(schema, a.arm) && ArmFits(schema, b.arm) && ArmFits(schema, c.arm)
    ensures EqualVT(schema, a, a)
    ensures EqualVT(schema, a, b) ==> EqualVT(schema, b, a)
    ensures EqualVT(schema, a, b) && EqualVT(schema, b, c) ==> EqualVT(schema, a, c)
  {
  }

  function Payload(schema: Schema, arm: Arm): seq<byte>
    requires arm.Arm? && arm.number in schema.arms
    requires arm.body.Some? ==> |arm.body.value.values| == |schema.arms[arm.number]|
  {
    if arm.body.Some? then L.Encode(schema.arms[arm.number], arm.body.value) else []
  }

  /** Nil arms are written as empty messages. */
  lemma ArmBytesIsRecord(schema: Schema, arm: Arm)
    requires WellShaped(schema) && ArmFits(schema, arm) && arm.Arm? && |ArmBytes(schema, arm)| < TWO_63
    ensures |Payload(schema, arm)| < TWO_63
    ensures ArmBytes(schema, arm) == ArmRecord(arm.number, Payload(schema, arm))
  {
    assert [0] + [] == [0];
  }

  /** The records of the port and the arm. */
  ghost function Heads(schema: Schema, m: Envelope): (rs: seq<Record>)
    requires Typed(schema, m) && |ArmBytes(schema, m.arm)| < TWO_63
  {
    if m.arm.Arm? then
      ArmBytesIsRecord(schema, m.arm);
      PortHead(schema, m) + [Known(m.arm.number, Data(Payload(schema, m.arm)))]
    else PortHead(schema, m)
  }

  ghost function PortHead(schema: Schema, m: Envelope): seq<Record> {
    if schema.hasPort && m.port != 0 then [Known(PORT_NUMBER, Num(m.port))] else []
  }

  lemma PortReads(schema: Schema, m: Envelope)
    requires |PortBytes(schema, m)| < TWO_63
    ensures ReadAll(FieldsOf(schema), PortBytes(schema, m), 0) == Ok(PortHead(schema, m))
  {
    hide ReadAll, RecordBytes;
    if schema.hasPort && m.port != 0 {
      RecordReads(FieldsOf(schema), PORT_NUMBER, Num(m.port));
    } else {
      NothingReads(FieldsOf(schema));
    }
  }

  lemma NothingReads(fields: Fields)
    ensures ReadAll(fields, [], 0) == Ok([])
  {
  }

  lemma HeadsRead(schema: Schema, m: Envelope)
    requires Typed(schema, m) && |PortBytes(schema, m) + ArmBytes(schema, m.arm)| < TWO_63
    ensures ReadAll(FieldsOf(schema), PortBytes(schema, m) + ArmBytes(schema, m.arm), 0) == Ok(Heads(schema, m))
  {
    hide ReadAll, RecordBytes, FieldsOf, PortBytes;
    PortReads(schema, m);
    if m.arm.Arm? {
      ArmBytesIsRecord(schema, m.arm);
      var payload := Payload(schema, m.arm);
      RecordReads(FieldsOf(schema), m.arm.number, Data(payload));
      ReadAllConcat(FieldsOf(schema), PortBytes(schema, m), ArmBytes(schema, m.arm));
    } else {
      assert PortBytes(schema, m) + [] == PortBytes(schema, m);
    }
  }

  /** What the port and arm records make of an empty envelope. */
  ghost function AfterHeads(schema: Schema, m: Envelope): Result<Envelope>
    requires Typed(schema, m) && |ArmBytes(schema, m.arm)| < TWO_63
  {
    if m.arm.NoArm? then Ok(m.(unknown := []))
    else
      ArmBytesIsRecord(schema, m.arm);
      var arms := schema.arms[m.arm.number];
      var body := L.DecodeOnto(arms, L.Empty(arms), Payload(schema, m.arm));
      if body.Ok? then Ok(Envelope(m.port, Arm(m.arm.number, Some(body.value)), [])) else Err(body.error)
  }

  lemma HeadsStore(schema: Schema, m: Envelope)
    requires Typed(schema, m) && |ArmBytes(schema, m.arm)| < TWO_63
    ensures Storable(schema, Heads(schema, m))
    ensures StoredAll(schema, EMPTY_ENVELOPE, Heads(schema, m)) == AfterHeads(schema, m)
  {
    hide L.DecodeFrom, L.Encode;
    var port := PortHead(schema, m);
    var p := Envelope(m.port, NoArm, []);
    assert StoredAll(schema, EMPTY_ENVELOPE, port) == Ok(p) by {
      if port != [] {
        assert port[1..] == [];
      }
    }
    if m.arm.Arm? {
      ArmBytesIsRecord(schema, m.arm);
      var r := Known(m.arm.number, Data(Payload(schema, m.arm)));
      assert [r][1..] == [];
      StoredAllConcat(schema, EMPTY_ENVELOPE, port, [r]);
      assert StoredAll(schema, p, [r]) == AfterHeads(schema, m);
    }
  }

  lemma StoreKeepsUnknown(schema: Schema, m: Envelope, r: Record)
    requires Ready(schema, m) && Wellformed(FieldsOf(schema), r)
    ensures
      var m' := Stored(schema, m, r);
      && (m'.Ok? ==> m'.value.unknown == m.unknown + if r.Other? then r.raw else [])
      && (r.Other? ==> m' == Ok(m.(unknown := m.unknown + r.raw)))
  {
    assert m.unknown + [] == m.unknown;
  }

  lemma {:induction false} StoredKeepsUnknown(schema: Schema, m: Envelope, rs: seq<Record>)
    requires Ready(schema, m) && Storable(schema, rs)
    ensures StoredAll(schema, m, rs).Ok? ==> StoredAll(schema, m, rs).value.unknown == m.unknown + Raws(rs)
    ensures AllOther(rs) ==> StoredAll(schema, m, rs) == Ok(m.(unknown := m.unknown + Raws(rs)))
    decreases |rs|
  {
    hide FieldsOf, Stored;
    if rs == [] {
      assert m.unknown + [] == m.unknown;
    } else {
      StoreKeepsUnknown(schema, m, rs[0]);
      var raw := if rs[0].Other? then rs[0].raw else [];
      if Stored(schema, m, rs[0]).Ok? {
        StoredKeepsUnknown(schema, Stored(schema, m, rs[0]).value, rs[1..]);
        assert m.unknown + raw + Raws(rs[1..]) == m.unknown + (raw + Raws(rs[1..]));
      }
      assert AllOther(rs) ==> rs[0].Other? && AllOther(rs[1..]);
    }
  }

  ghost predicate CleanUnknowns(schema: Schema, m: Envelope)
    requires Typed(schema, m) && |m.unknown| < TWO_63
    requires m.arm.Arm? && m.arm.body.Some? ==> |m.arm.body.value.unknown| < TWO_63
  {
    && UnknownOnly(FieldsOf(schema), m.unknown)
    && (m.arm.Arm? && m.arm.body.Some? ==>
          UnknownOnly(L.FieldsOf(schema.arms[m.arm.number]), m.arm.body.value.unknown))
  }

  /** The port and arm records restore the message, up to `EqualVT`, exactly when the arm's unknown bytes are
      well-formed records of fields the arm does not have. */
  lemma AfterHeadsEqualIff(schema: Schema, m: Envelope)
    requires Typed(schema, m) && |ArmBytes(schema, m.arm)| < TWO_63
    ensures m.arm.Arm? && m.arm.body.Some? ==> |m.arm.body.value.unknown| < TWO_63
    ensures
      var h := AfterHeads(schema, m);
      h.Ok? && EqualVT(schema, h.value, m.(unknown := [])) <==>
        (m.arm.Arm? && m.arm.body.Some? ==>
           UnknownOnly(L.FieldsOf(schema.arms[m.arm.number]), m.arm.body.value.unknown))
  {
    hide L.DecodeFrom, L.Encode, ReadAll, L.FieldsOf, FieldsOf;
    if m.arm.Arm? {
      ArmBytesIsRecord(schema, m.arm);
      if m.arm.body.Some? {
        L.RoundTripIff(schema.arms[m.arm.number], m.arm.body.value);
      } else {
        L.NothingDecodes(schema.arms[m.arm.number]);
      }
    }
  }

  lemma EncodeLengths(schema: Schema, m: Envelope)
    requires Typed(schema, m)
    ensures |Encode(schema, m)| == |PortBytes(schema, m) + ArmBytes(schema, m.arm)| + |m.unknown|
    ensures |PortBytes(schema, m) + ArmBytes(schema, m.arm)| == |PortBytes(schema, m)| + |ArmBytes(schema, m.arm)|
  {
  }

  /** Decoding an encoded envelope gives an `EqualVT` envelope exactly when its unknown bytes, and those of its
      arm, are well-formed records of fields they do not have. */
  lemma RoundTripIff(schema: Schema, m: Envelope)
    requires Typed(schema, m) && |Encode(schema, m)| < TWO_63
    ensures |m.unknown| < TWO_63
    ensures m.arm.Arm? && m.arm.body.Some? ==> |m.arm.body.value.unknown| < TWO_63
    ensures
      var r := DecodeOnto(schema, EMPTY_ENVELOPE, Encode(schema, m));
      r.Ok? && EqualVT(schema, r.value, m) <==> CleanUnknowns(schema, m)
  {
    hide ReadAll, DecodeFrom, StoredAll, FieldsOf, PortBytes, ArmBytes, Raws, EqualArms;
    EncodeLengths(schema, m);
    var head := PortBytes(schema, m) + ArmBytes(schema, m.arm);
    HeadsRead(schema, m);
    HeadsStore(schema, m);
    AfterHeadsEqualIff(schema, m);
    DecodeStoresRecords(schema, EMPTY_ENVELOPE, Encode(schema, m), 0);
    ReadAllConcat(FieldsOf(schema), head, m.unknown);
    var rest := ReadAll(FieldsOf(schema), m.unknown, 0);
    if rest.Ok? {
      StoredAllConcat(schema, EMPTY_ENVELOPE, Heads(schema, m), rest.value);
      RawsOfRecords(FieldsOf(schema), m.unknown, 0);
      var h := AfterHeads(schema, m);
      if h.Ok? {
        StoredKeepsUnknown(schema, h.value, rest.value);
        assert [] + Raws(rest.value) == Raws(rest.value);
      }
    }
  }
}
