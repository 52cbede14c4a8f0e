/** A message on the wire as a list of records: what one turn of a generated `UnmarshalVT` loop in
    pb/core_lite.go reads, before it is stored anywhere. */
module Records {
  import opened Words
  import opened Wire

  /** `Blob` covers strings, bytes and embedded messages. */
  datatype Kind = I32 | I64 | Blob

  datatype Value = Num(n: int64) | Data(bytes: Bytes)

  /** The fields of a message by number. */
  type Fields = map<int, Kind>

  datatype Record = Known(number: int, value: Value) | Other(raw: seq<byte>)

  predicate HasKind(kind: Kind, v: Value) {
    match kind
    case I32 => v.Num? && -TWO_31 <= v.n < TWO_31
    case I64 => v.Num?
    case Blob => v.Data?
  }

  predicate Wellformed(fields: Fields, r: Record) {
    r.Known? ==> r.number in fields && HasKind(fields[r.number], r.value)
  }

  function WireTypeOf(kind: Kind): nat {
    if kind.Blob? then 2 else 0
  }

  function ReadValue(kind: Kind, s: Bytes, i: nat): (r: Result<(Value, nat)>)
    requires i <= |s|
    ensures r.Ok? ==> i < r.value.1 <= |s| && HasKind(kind, r.value.0)
  {
    match kind
    case I32 =>
      var v :- DecodeVarint(s, i);
      Ok((Num(Int32(v.0)), v.1))
    case I64 =>
      var v :- DecodeVarint(s, i);
      Ok((Num(Int64(v.0)), v.1))
    case Blob =>
      var v :- ReadSlice(s, i);
      Ok((Data(v.0), v.1))
  }

  /** The record at `i` and the index after it. */
  function ReadRecord(fields: Fields, s: Bytes, i: nat): (r: Result<(Record, nat)>)
    requires i < |s|
    ensures r.Ok? ==> i < r.value.1 <= |s| && Wellformed(fields, r.value.0)
  {
    var tag :- ReadTag(s, i);
    var number := tag.0.number;
    if number in fields then
      if tag.0.wireType != WireTypeOf(fields[number]) then Err(WrongWireType)
      else
        var v :- ReadValue(fields[number], s, tag.1);
        Ok((Known(number, v.0), v.1))
    else
      var end :- UnknownEnd(s, i);
      Ok((Other(s[i..end]), end))
  }

  /** All records from `i` on. */
  function ReadAll(fields: Fields, s: Bytes, i: nat): (r: Result<seq<Record>>)
    requires i <= |s|
    ensures r.Ok? ==> forall k :: 0 <= k < |r.value| ==> Wellformed(fields, r.value[k])
    decreases |s| - i
  {
    if i == |s| then Ok([])
    else
      var head :- ReadRecord(fields, s, i);
      var tail :- ReadAll(fields, s, head.1);
      Ok([head.0] + tail)
  }

  // ----- records do not look past their own bytes

  lemma ReadValueExtend(kind: Kind, s: Bytes, t: Bytes, i: nat)
    requires |s + t| < TWO_63 && i <= |s| && ReadValue(kind, s, i).Ok?
    ensures ReadValue(kind, s + t, i) == ReadValue(kind, s, i)
  {
    hide DecodeVarint, ReadSlice;
    if kind.Blob? {
      SliceExtend(s, t, i);
    } else {
      VarintLocality(s, t, i);
    }
  }

  lemma ReadValueMove(kind: Kind, s: Bytes, t: Bytes, i: nat)
    requires |s + t| < TWO_63 && i <= |t|
    ensures Shifted(ReadValue(kind, s + t, |s| + i), Moved(ReadValue(kind, t, i), |s|))
  {
    hide DecodeVarint, ReadSlice;
    if kind.Blob? {
      SliceMove(s, t, i);
    } else {
      VarintLocality(s, t, i);
    }
  }

  lemma ReadRecordExtend(fields: Fields, s: Bytes, t: Bytes, i: nat)
    requires |s + t| < TWO_63 && i < |s| && ReadRecord(fields, s, i).Ok?
    ensures ReadRecord(fields, s + t, i) == ReadRecord(fields, s, i)
  {
    hide ReadTag, ReadValue, UnknownEnd;
    TagLocality(s, t, i);
    var tag := ReadTag(s, i).value;
    if tag.0.number in fields {
      ReadValueExtend(fields[tag.0.number], s, t, tag.1);
    } else {
      UnknownEndLocality(s, t, i);
      var end := UnknownEnd(s, i).value;
      assert (s + t)[i..end] == s[i..end];
    }
  }

  lemma ReadRecordMove(fields: Fields, s: Bytes, t: Bytes, i: nat)
    requires |s + t| < TWO_63 && i < |t|
    ensures Shifted(ReadRecord(fields, s + t, |s| + i), Moved(ReadRecord(fields, t, i), |s|))
  {
    hide ReadTag, ReadValue, UnknownEnd;
    TagLocality(s, t, i);
    if ReadTag(t, i).Ok? {
      var tag := ReadTag(t, i).value;
      if tag.0.number in fields {
        ReadValueMove(fields[tag.0.number], s, t, tag.1);
      } else {
        UnknownEndLocality(s, t, i);
        if UnknownEnd(t, i).Ok? {
          var end := UnknownEnd(t, i).value;
          assert (s + t)[|s| + i..|s| + end] == t[i..end];
        }
      }
    }
  }

  lemma {:induction false} ReadAllMove(fields: Fields, s: Bytes, t: Bytes, i: nat)
    requires |s + t| < TWO_63 && i <= |t|
    ensures SameOutcome(ReadAll(fields, s + t, |s| + i), ReadAll(fields, t, i))
    decreases |t| - i
  {
    hide ReadRecord;
    if i < |t| {
      ReadRecordMove(fields, s, t, i);
      var r := ReadRecord(fields, t, i);
      if r.Ok? {
        ReadAllMove(fields, s, t, r.value.1);
      }
    }
  }

  lemma {:induction false} ReadAllThrough(fields: Fields, s: Bytes, t: Bytes, i: nat)
    requires |s + t| < TWO_63 && i <= |s| && ReadAll(fields, s, i).Ok?
    ensures
      var all, rest := ReadAll(fields, s + t, i), ReadAll(fields, t, 0);
      (all.Ok? <==> rest.Ok?) && (all.Ok? ==> all.value == ReadAll(fields, s, i).value + rest.value)
    decreases |s| - i
  {
    hide ReadRecord;
    if i < |s| {
      ReadRecordExtend(fields, s, t, i);
      ReadAllThrough(fields, s, t, ReadRecord(fields, s, i).value.1);
    } else {
      ReadAllMove(fields, s, t, 0);
    }
  }

  /** If `s` consists of whole records, the records of `s + t` are those of `s`, then those of `t`. */
  lemma ReadAllConcat(fields: Fields, s: Bytes, t: Bytes)
    requires |s + t| < TWO_63 && ReadAll(fields, s, 0).Ok?
    ensures
      var all, rest := ReadAll(fields, s + t, 0), ReadAll(fields, t, 0);
      (all.Ok? <==> rest.Ok?) && (all.Ok? ==> all.value == ReadAll(fields, s, 0).value + rest.value)
  {
    ReadAllThrough(fields, s, t, 0);
  }

  // ----- writing one record

  function RecordBytes(number: nat, v: Value): seq<byte>
    requires number <= 15
  {
    if v.Num? then [TagByte(number, 0)] + VarintBytes(Uint64(v.n))
    else [TagByte(number, 2)] + SliceBytes(v.bytes)
  }

  lemma ValueReads(kind: Kind, number: nat, v: Value)
    requires number <= 15 && HasKind(kind, v) && |RecordBytes(number, v)| < TWO_63
    ensures ReadValue(kind, RecordBytes(number, v), 1) == Ok((v, |RecordBytes(number, v)|))
  {
    var s := RecordBytes(number, v);
    if v.Num? {
      var u := Uint64(v.n);
      assert s[1..1 + |VarintBytes(u)|] == VarintBytes(u);
      VarintRoundTrip(u, s, 1);
      SignedViews(v.n, if kind.I32? then v.n else 0, 0);
    } else {
      SliceReads(v.bytes, s, 1);
    }
  }

  /** A written record reads back as itself. */
  lemma RecordReads(fields: Fields, number: nat, v: Value)
    requires 1 <= number <= 15 && number in fields && HasKind(fields[number], v) && |RecordBytes(number, v)| < TWO_63
    ensures ReadAll(fields, RecordBytes(number, v), 0) == Ok([Known(number, v)])
  {
    hide ReadValue, ReadTag;
    var s := RecordBytes(number, v);
    TagReads(number, WireTypeOf(fields[number]), s[1..]);
    assert s == [TagByte(number, WireTypeOf(fields[number]))] + s[1..];
    ValueReads(fields[number], number, v);
    assert ReadRecord(fields, s, 0) == Ok((Known(number, v), |s|));
    assert ReadAll(fields, s, |s|) == Ok([]);
    assert [Known(number, v)] + [] == [Known(number, v)];
  }

  // ----- unknown bytes

  ghost predicate AllOther(rs: seq<Record>) {
    forall k :: 0 <= k < |rs| ==> rs[k].Other?
  }

  function Raws(rs: seq<Record>): seq<byte> {
    if rs == [] then [] else (if rs[0].Other? then rs[0].raw else []) + Raws(rs[1..])
  }

  /** `u` is a run of well-formed records of fields the message does not have. */
  ghost predicate UnknownOnly(fields: Fields, u: Bytes) {
    ReadAll(fields, u, 0).Ok? && AllOther(ReadAll(fields, u, 0).value)
  }

  lemma UnknownKeepsBytes(fields: Fields, s: Bytes, i: nat)
    requires i < |s| && ReadRecord(fields, s, i).Ok? && ReadRecord(fields, s, i).value.0.Other?
    ensures ReadRecord(fields, s, i).value.0.raw == s[i..ReadRecord(fields, s, i).value.1]
  {
    hide ReadTag, ReadValue, UnknownEnd;
  }

  /** Unknown records keep their bytes; anything known takes some away. */
  lemma {:induction false} RawsOfRecords(fields: Fields, s: Bytes, i: nat)
    requires i <= |s| && ReadAll(fields, s, i).Ok?
    ensures |Raws(ReadAll(fields, s, i).value)| <= |s| - i
    ensures AllOther(ReadAll(fields, s, i).value) ==> Raws(ReadAll(fields, s, i).value) == s[i..]
    ensures |Raws(ReadAll(fields, s, i).value)| == |s| - i ==> AllOther(ReadAll(fields, s, i).value)
    decreases |s| - i
  {
    hide ReadRecord;
    if i < |s| {
      var head := ReadRecord(fields, s, i).value;
      var tail := ReadAll(fields, s, head.1).value;
      var all := [head.0] + tail;
      RawsOfRecords(fields, s, head.1);
      assert all[1..] == tail;
      assert AllOther(all) ==> forall k :: 0 <= k < |tail| ==> tail[k] == all[k + 1] && tail[k].Other?;
      if head.0.Other? {
        UnknownKeepsBytes(fields, s, i);
        assert s[i..head.1] + s[head.1..] == s[i..];
      }
    }
  }
}
