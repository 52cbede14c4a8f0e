/** Fields of any wire type, nested groups included, after the section "Message Structure" of the Protocol
    Buffers Encoding guide: skipping one lands exactly at its end, so unknown fields survive a decoder of
    pb/core_lite.go byte for byte. */
module WireFields {
  import opened Words
  import opened Wire
  import opened Records

  datatype Field =
    | Varint(number: nat, v: uint64)
    | Fixed64(number: nat, b: seq<byte>)
    | Delimited(number: nat, b: seq<byte>)
    | Group(number: nat, members: seq<Field>)
    | Fixed32(number: nat, b: seq<byte>)

  /** Field numbers have 29 bits; fixed fields have their size. */
  predicate Valid(f: Field)
    decreases f
  {
    && 1 <= f.number < 0x2000_0000
    && match f
       case Varint(_, _) => true
       case Fixed64(_, b) => |b| == 8
       case Delimited(_, b) => |b| < TWO_63
       case Fixed32(_, b) => |b| == 4
       case Group(_, members) => forall m :: m in members ==> Valid(m)
  }

  function TagBytes(number: nat, wireType: nat): seq<byte> {
    VarintBytes(number * 8 + wireType)
  }

  function Encode(f: Field): seq<byte>
    decreases f, 0
  {
    match f
    case Varint(n, v) => TagBytes(n, 0) + VarintBytes(v)
    case Fixed64(n, b) => TagBytes(n, 1) + b
    case Delimited(n, b) => TagBytes(n, 2) + SliceBytes(b)
    case Group(n, members) => TagBytes(n, 3) + EncodeAll(members) + TagBytes(n, 4)
    case Fixed32(n, b) => TagBytes(n, 5) + b
  }

  function EncodeAll(fs: seq<Field>): seq<byte>
    decreases fs, 1
  {
    if fs == [] then [] else Encode(fs[0]) + EncodeAll(fs[1..])
  }

  /** `part` stands in `s` at `i`. */
  ghost predicate At(s: seq<byte>, i: nat, part: seq<byte>) {
    i + |part| <= |s| && s[i..i + |part|] == part
  }

  lemma AtSplit(s: seq<byte>, i: nat, a: seq<byte>, b: seq<byte>)
    requires At(s, i, a + b)
    ensures At(s, i, a) && At(s, i + |a|, b)
  {
    var ab := a + b;
    assert s[i..i + |a|] == s[i..i + |ab|][..|a|] == a;
    assert s[i + |a|..i + |a| + |b|] == s[i..i + |ab|][|a|..] == b;
  }

  lemma TagReadsAt(s: Bytes, i: nat, number: nat, wireType: nat)
    requires 1 <= number < 0x2000_0000 && wireType < 8 && At(s, i, TagBytes(number, wireType))
    ensures
      var v := number * 8 + wireType;
      DecodeVarint(s, i) == Ok((v, i + |TagBytes(number, wireType)|)) && v % 8 == wireType && v / 8 == number
  {
    VarintRoundTrip(number * 8 + wireType, s, i);
  }

  function WireTypeOf(f: Field): nat {
    match f
    case Varint(_, _) => 0
    case Fixed64(_, _) => 1
    case Delimited(_, _) => 2
    case Group(_, _) => 3
    case Fixed32(_, _) => 5
  }

  /** A non-group value is skipped to its end. */
  lemma BodySkips(s: Bytes, i: nat, f: Field)
    requires Valid(f) && !f.Group? && At(s, i, Encode(f))
    ensures At(s, i, TagBytes(f.number, WireTypeOf(f)))
    ensures
      SkipBody(s, i + |TagBytes(f.number, WireTypeOf(f))|, WireTypeOf(f)) == Ok(i + |Encode(f)|)
  {
    hide DecodeVarint, VarintBytes, EncodeAll;
    var j := i + |TagBytes(f.number, WireTypeOf(f))|;
    match f
    case Varint(n, v) =>
      AtSplit(s, i, TagBytes(n, 0), VarintBytes(v));
      VarintRoundTrip(v, s, j);
    case Fixed64(n, b) =>
      AtSplit(s, i, TagBytes(n, 1), b);
    case Delimited(n, b) =>
      AtSplit(s, i, TagBytes(n, 2), SliceBytes(b));
      AtSplit(s, j, VarintBytes(|b|), b);
      VarintRoundTrip(|b|, s, j);
    case Fixed32(n, b) =>
      AtSplit(s, i, TagBytes(n, 5), b);
  }

  /** What skipping does at a tag. */
  lemma SkipAtTag(s: Bytes, i: nat, depth: nat, number: nat, wireType: nat)
    requires 1 <= number < 0x2000_0000 && wireType < 8 && At(s, i, TagBytes(number, wireType))
    ensures
      var j := i + |TagBytes(number, wireType)|;
      && (wireType == 3 ==> SkipFrom(s, i, depth) == SkipFrom(s, j, depth + 1))
      && (wireType == 4 && depth > 0 ==>
            SkipFrom(s, i, depth) == if depth == 1 then Ok(j) else SkipFrom(s, j, depth - 1))
      && (wireType != 3 && wireType != 4 && SkipBody(s, j, wireType).Ok? ==>
            var next := SkipBody(s, j, wireType).value;
            next <= |s| ==> SkipFrom(s, i, depth) == if depth == 0 then Ok(next) else SkipFrom(s, next, depth))
  {
    hide DecodeVarint, VarintBytes, SkipBody;
    TagReadsAt(s, i, number, wireType);
  }

  /** The parts of a group and where they stand. */
  lemma GroupParts(s: Bytes, i: nat, f: Field)
    requires f.Group? && At(s, i, Encode(f))
    ensures
      var j := i + |TagBytes(f.number, 3)|;
      var k := j + |EncodeAll(f.members)|;
      && At(s, i, TagBytes(f.number, 3)) && At(s, j, EncodeAll(f.members)) && At(s, k, TagBytes(f.number, 4))
      && k + |TagBytes(f.number, 4)| == i + |Encode(f)|
  {
    hide EncodeAll, TagBytes;
    var inner := EncodeAll(f.members) + TagBytes(f.number, 4);
    assert Encode(f) == TagBytes(f.number, 3) + inner;
    AtSplit(s, i, TagBytes(f.number, 3), inner);
    AtSplit(s, i + |TagBytes(f.number, 3)|, EncodeAll(f.members), TagBytes(f.number, 4));
  }

  /** Skipping inside `depth` open groups steps over one whole field. */
  lemma {:induction false} FieldSkips(s: Bytes, i: nat, depth: nat, f: Field)
    requires Valid(f) && At(s, i, Encode(f))
    ensures SkipFrom(s, i, depth) == if depth == 0 then Ok(i + |Encode(f)|) else SkipFrom(s, i + |Encode(f)|, depth)
    decreases f, 0
  {
    hide SkipFrom, SkipBody, TagBytes, Encode, EncodeAll;
    if f.Group? {
      GroupParts(s, i, f);
      var j := i + |TagBytes(f.number, 3)|;
      SkipAtTag(s, i, depth, f.number, 3);
      FieldsSkip(s, j, depth + 1, f.members);
      SkipAtTag(s, j + |EncodeAll(f.members)|, depth + 1, f.number, 4);
    } else {
      BodySkips(s, i, f);
      SkipAtTag(s, i, depth, f.number, WireTypeOf(f));
    }
  }

  lemma {:induction false} FieldsSkip(s: Bytes, i: nat, depth: nat, fs: seq<Field>)
    requires (forall f :: f in fs ==> Valid(f)) && depth > 0 && At(s, i, EncodeAll(fs))
    ensures SkipFrom(s, i, depth) == SkipFrom(s, i + |EncodeAll(fs)|, depth)
    decreases fs, 1
  {
    hide SkipFrom;
    if fs != [] {
      AtSplit(s, i, Encode(fs[0]), EncodeAll(fs[1..]));
      FieldSkips(s, i, depth, fs[0]);
      FieldsSkip(s, i + |Encode(fs[0])|, depth, fs[1..]);
    }
  }

  /** A field the message does not have reads as one unknown record, its bytes intact. */
  lemma ForeignFieldReads(fields: Fields, f: Field)
    requires Valid(f) && f.number !in fields && |Encode(f)| < TWO_63
    ensures |Encode(f)| > 0 && ReadRecord(fields, Encode(f), 0) == Ok((Other(Encode(f)), |Encode(f)|))
  {
    hide DecodeVarint, VarintBytes, SkipFrom;
    var s := Encode(f);
    FieldSkips(s, 0, 0, f);
    var rest :=
      if f.Group? then EncodeAll(f.members) + TagBytes(f.number, 4)
      else s[|TagBytes(f.number, WireTypeOf(f))|..];
    assert s == TagBytes(f.number, WireTypeOf(f)) + rest;
    AtSplit(s, 0, TagBytes(f.number, WireTypeOf(f)), rest);
    TagReadsAt(s, 0, f.number, WireTypeOf(f));
    assert s[0..] == s;
    UnknownEndIsExact(s, 0);
  }

  /** Any run of fields the message does not have is a clean run of unknown bytes. */
  lemma {:induction false} ForeignFieldsAreUnknown(fields: Fields, fs: seq<Field>)
    requires forall f :: f in fs ==> Valid(f) && f.number !in fields
    requires |EncodeAll(fs)| < TWO_63
    ensures UnknownOnly(fields, EncodeAll(fs))
    decreases |fs|
  {
    hide ReadRecord, Encode;
    if fs != [] {
      var head, tail := Encode(fs[0]), EncodeAll(fs[1..]);
      ForeignFieldReads(fields, fs[0]);
      ForeignFieldsAreUnknown(fields, fs[1..]);
      assert ReadAll(fields, head, |head|) == Ok([]);
      ReadAllConcat(fields, head, tail);
    }
  }
}
