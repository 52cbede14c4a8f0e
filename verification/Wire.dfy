/** The wire primitives the envelope codec of pb/core_lite.go calls: base-128 varints, tags, length-checked
    slices and record skipping, after the Protocol Buffers Encoding guide, with Go's 64-bit integers. */
module Wire {
  import opened Words

  datatype Error =
    | UnexpectedEOF | InvalidLength | IntOverflow | EndGroup | IllegalTag
    | WrongWireType | IllegalWireType | UnexpectedEndOfGroup

  datatype Result<+T> = Ok(value: T) | Err(error: Error) {
    predicate IsFailure() { Err? }

    function PropagateFailure<U>(): Result<U>
      requires Err?
    {
      Err(error)
    }

    function Extract(): T
      requires Ok?
    {
      value
    }
  }

  /** Go slices are indexed by `int`, so none is longer than this. */
  type Bytes = s: seq<byte> | |s| < 0x8000_0000_0000_0000

  const MAX_VARINT_LENGTH := 10

  // ----- varints

  function VarintBytes(v: nat): (s: seq<byte>)
    ensures |s| >= 1
  {
    if v < 128 then [v] else [v % 128 + 128] + VarintBytes(v / 128)
  }

  function VarintSize(v: nat): nat {
    if v < 128 then 1 else 1 + VarintSize(v / 128)
  }

  lemma {:induction false} VarintSizeIsLength(v: nat)
    ensures |VarintBytes(v)| == VarintSize(v)
  {
    if v >= 128 {
      VarintSizeIsLength(v / 128);
    }
  }

  function Pow128(k: nat): nat {
    if k == 0 then 1 else 128 * Pow128(k - 1)
  }

  lemma {:induction false} VarintFits(v: nat, k: nat)
    requires v < 128 * Pow128(k)
    ensures |VarintBytes(v)| <= k + 1
  {
    if v >= 128 {
      VarintFits(v / 128, k - 1);
    }
  }

  /** A 64-bit varint takes at most ten bytes. */
  lemma VarintAtMostTen(v: uint64)
    ensures |VarintBytes(v)| <= MAX_VARINT_LENGTH
  {
    assert Pow128(3) == 0x20_0000;
    assert Pow128(6) == 0x400_0000_0000;
    assert Pow128(9) == 0x8000_0000_0000_0000;
    VarintFits(v, 9);
  }

  /** Byte `k` of a varint is the `k`-th base-128 digit, with the continuation bit on all but the last, and the last
      of several is not zero: the form of the section "Base 128 Varints", without padding. */
  lemma {:induction false} VarintDigit(v: nat, k: nat)
    requires k < |VarintBytes(v)|
    ensures Pow128(k) > 0
    ensures VarintBytes(v)[k] == v / Pow128(k) % 128 + if k + 1 < |VarintBytes(v)| then 128 else 0
    ensures |VarintBytes(v)| > 1 ==> VarintBytes(v)[|VarintBytes(v)| - 1] > 0
  {
    PowPositive(k);
    if v >= 128 {
      VarintDigit(v / 128, if k > 0 then k - 1 else 0);
      if k > 0 {
        PowPositive(k - 1);
        DivideTwice(v, 128, Pow128(k - 1));
      }
    }
  }

  lemma {:induction false} PowPositive(k: nat)
    ensures Pow128(k) > 0
  {
    if k > 0 {
      PowPositive(k - 1);
    }
  }

  /** The examples of that section. */
  lemma VarintExamples()
    ensures VarintBytes(1) == [1] && VarintBytes(150) == [0x96, 0x01] && VarintBytes(300) == [0xAC, 0x02]
  {
  }

  /** The seven-bit groups from `i` on, `n` of which have been read already, and the index after them. */
  function Septets(s: seq<byte>, i: nat, n: nat): (r: Result<(nat, nat)>)
    ensures r.Ok? ==> i < r.value.1 <= |s|
    decreases MAX_VARINT_LENGTH - n
  {
    if n >= MAX_VARINT_LENGTH then Err(IntOverflow)
    else if i >= |s| then Err(UnexpectedEOF)
    else if s[i] < 128 then Ok((s[i], i + 1))
    else
      var rest :- Septets(s, i + 1, n + 1);
      Ok((s[i] - 128 + 128 * rest.0, rest.1))
  }

  /** Groups beyond 64 bits are shifted out. */
  function DecodeVarint(s: seq<byte>, i: nat): (r: Result<(uint64, nat)>)
    ensures r.Ok? ==> i < r.value.1 <= |s|
  {
    var g :- Septets(s, i, 0);
    Ok((g.0 % TWO_64, g.1))
  }

  /** Whether one of the next `n` bytes ends a varint. */
  ghost predicate Ends(s: seq<byte>, i: nat, n: nat) {
    exists j: nat :: i <= j < i + n && j < |s| && s[j] < 128
  }

  lemma {:induction false} SeptetsEnd(s: seq<byte>, i: nat, n: nat)
    requires n <= MAX_VARINT_LENGTH && i <= |s|
    ensures Septets(s, i, n).Ok? <==> Ends(s, i, MAX_VARINT_LENGTH - n)
    ensures Septets(s, i, n).Err? ==>
      Septets(s, i, n).error == if i + (MAX_VARINT_LENGTH - n) <= |s| then IntOverflow else UnexpectedEOF
    decreases MAX_VARINT_LENGTH - n
  {
    if n < MAX_VARINT_LENGTH && i < |s| && s[i] >= 128 {
      SeptetsEnd(s, i + 1, n + 1);
    }
  }

  /** A varint is accepted exactly if one of ten bytes ends it; otherwise it is too long or cut off. */
  lemma VarintAcceptedIff(s: seq<byte>, i: nat)
    requires i <= |s|
    ensures DecodeVarint(s, i).Ok? <==> Ends(s, i, 10)
    ensures DecodeVarint(s, i).Err? ==>
      DecodeVarint(s, i).error == if i + 10 <= |s| then IntOverflow else UnexpectedEOF
  {
    SeptetsEnd(s, i, 0);
  }

  lemma {:induction false} SeptetsRead(v: nat, s: seq<byte>, i: nat, n: nat)
    requires n + |VarintBytes(v)| <= MAX_VARINT_LENGTH
    requires i + |VarintBytes(v)| <= |s| && s[i..i + |VarintBytes(v)|] == VarintBytes(v)
    ensures Septets(s, i, n) == Ok((v, i + |VarintBytes(v)|))
    decreases v
  {
    assert s[i] == VarintBytes(v)[0];
    if v >= 128 {
      assert s[i + 1..i + 1 + |VarintBytes(v / 128)|] == VarintBytes(v)[1..];
      SeptetsRead(v / 128, s, i + 1, n + 1);
    }
  }

  /** Decoding what was encoded, wherever it stands in the input. */
  lemma VarintRoundTrip(v: uint64, s: seq<byte>, i: nat)
    requires i + |VarintBytes(v)| <= |s| && s[i..i + |VarintBytes(v)|] == VarintBytes(v)
    ensures DecodeVarint(s, i) == Ok((v, i + |VarintBytes(v)|))
  {
    VarintAtMostTen(v);
    SeptetsRead(v, s, i, 0);
  }

  lemma VarintAtStart(v: uint64, rest: seq<byte>)
    ensures DecodeVarint(VarintBytes(v) + rest, 0) == Ok((v, |VarintBytes(v)|))
  {
    var s := VarintBytes(v) + rest;
    assert s[0..|VarintBytes(v)|] == VarintBytes(v);
    VarintRoundTrip(v, s, 0);
  }

  lemma {:induction false} SeptetsExtend(s: seq<byte>, t: seq<byte>, i: nat, n: nat)
    requires Septets(s, i, n).Ok?
    ensures Septets(s + t, i, n) == Septets(s, i, n)
    decreases MAX_VARINT_LENGTH - n
  {
    assert (s + t)[i] == s[i];
    if s[i] >= 128 {
      SeptetsExtend(s, t, i + 1, n + 1);
    }
  }

  ghost function Moved<T>(r: Result<(T, nat)>, d: nat): Result<(T, nat)> {
    if r.Ok? then Ok((r.value.0, d + r.value.1)) else r
  }

  /** What `t` has at `i` stands in `st` at `d + i`, up to the end of both. */
  ghost predicate TailAt(st: seq<byte>, d: nat, t: seq<byte>) {
    |st| == d + |t| && forall k: nat :: k < |t| ==> st[d + k] == t[k]
  }

  lemma {:induction false} SeptetsMove(st: seq<byte>, d: nat, t: seq<byte>, i: nat, n: nat)
    requires TailAt(st, d, t)
    ensures Septets(st, d + i, n) == Moved(Septets(t, i, n), d)
    decreases MAX_VARINT_LENGTH - n
  {
    if n < MAX_VARINT_LENGTH && i < |t| {
      assert st[d + i] == t[i];
      if t[i] >= 128 {
        SeptetsMove(st, d, t, i + 1, n + 1);
      }
    }
  }

  /** A varint that ends inside `s` is read the same with more input behind it, and reading past `s` is
      reading the rest alone. */
  lemma VarintLocality(s: seq<byte>, t: seq<byte>, i: nat)
    ensures DecodeVarint(s, i).Ok? ==> DecodeVarint(s + t, i) == DecodeVarint(s, i)
    ensures DecodeVarint(s + t, |s| + i) == Moved(DecodeVarint(t, i), |s|)
  {
    hide Septets;
    if DecodeVarint(s, i).Ok? {
      SeptetsExtend(s, t, i, 0);
    }
    SeptetsMove(s + t, |s|, t, i, 0);
  }

  // ----- lengths

  /** The end of a slice of `v` bytes at `i`, by the generated checks: the length as a signed integer, the
      sum wrapped, then the bound. */
  function SliceEnd(i: nat, v: uint64, l: nat): (r: Result<nat>)
    requires i <= l < TWO_63
  {
    CheckedEnd(i, Int64(v), l, TWO_63)
  }

  /** The same where `int` has 32 bits: the conversion keeps the low half of the length. */
  function SliceEnd32(i: nat, v: uint64, l: nat): (r: Result<nat>)
    requires i <= l < TWO_31
  {
    CheckedEnd(i, Int32(v), l, TWO_31)
  }

  /** The checks on an `int` length, `half` being one more than the largest `int`. */
  function CheckedEnd(i: nat, length: int, l: nat, half: nat): (r: Result<nat>)
    requires i <= l < half && length < half
    ensures r.Ok? ==> r.value <= l
  {
    if length < 0 then Err(InvalidLength)
    else
      var end := if i + length >= half then i + length - 2 * half else i + length;
      if end < 0 then Err(InvalidLength)
      else if end > l then Err(UnexpectedEOF)
      else Ok(end)
  }

  /** Those checks are exact: they pass just when the unsigned length fits, and give the true end. */
  lemma SliceEndIsExact(i: nat, v: uint64, l: nat)
    requires i <= l < TWO_63
    ensures SliceEnd(i, v, l).Ok? <==> i + v <= l
    ensures SliceEnd(i, v, l).Err? ==>
      SliceEnd(i, v, l).error == if i + v < TWO_63 then UnexpectedEOF else InvalidLength
    ensures SliceEnd(i, v, l).Ok? ==> SliceEnd(i, v, l).value == i + v
  {
  }

  /** With 32 bits they are exact for every length below 2^32; a longer one passes for its low half exactly when
      that fits. */
  lemma SliceEnd32IsExactIff(i: nat, v: uint64, l: nat)
    requires i <= l < TWO_31
    ensures
      var exact := SliceEnd32(i, v, l).Ok? <==> i + v <= l;
      && (exact <==> v < TWO_32 || i + v % TWO_32 > l)
      && (exact && SliceEnd32(i, v, l).Ok? ==> SliceEnd32(i, v, l).value == i + v)
      && (!exact ==> SliceEnd32(i, v, l) == Ok(i + v % TWO_32))
  {
  }

  /** So for such lengths the width of `int` does not matter. */
  lemma WidthsAgree(i: nat, v: uint64, l: nat)
    requires i <= l < TWO_31 && v < TWO_32
    ensures SameOutcome(SliceEnd32(i, v, l), SliceEnd(i, v, l))
  {
    SliceEnd32IsExactIff(i, v, l);
    SliceEndIsExact(i, v, l);
  }

  /** A length-delimited value: a varint length, then that many bytes. */
  function ReadSlice(s: Bytes, i: nat): (r: Result<(Bytes, nat)>)
    requires i <= |s|
    ensures r.Ok? ==> i < r.value.1 <= |s|
  {
    var v :- DecodeVarint(s, i);
    var end :- SliceEnd(v.1, v.0, |s|);
    SliceEndIsExact(v.1, v.0, |s|);
    Ok((s[v.1..end], end))
  }

  lemma SliceExtend(s: Bytes, t: Bytes, i: nat)
    requires |s + t| < TWO_63 && i <= |s| && ReadSlice(s, i).Ok?
    ensures ReadSlice(s + t, i) == ReadSlice(s, i)
  {
    VarintLocality(s, t, i);
    var v := DecodeVarint(s, i).value;
    SliceEndIsExact(v.1, v.0, |s|);
    SliceEndIsExact(v.1, v.0, |s + t|);
    assert (s + t)[v.1..v.1 + v.0] == s[v.1..v.1 + v.0];
  }

  lemma SliceMove(s: Bytes, t: Bytes, i: nat)
    requires |s + t| < TWO_63 && i <= |t|
    ensures Shifted(ReadSlice(s + t, |s| + i), Moved(ReadSlice(t, i), |s|))
  {
    VarintLocality(s, t, i);
    if DecodeVarint(t, i).Ok? {
      var v := DecodeVarint(t, i).value;
      SliceEndIsExact(v.1, v.0, |t|);
      SliceEndIsExact(|s| + v.1, v.0, |s + t|);
      if v.1 + v.0 <= |t| {
        assert (s + t)[|s| + v.1..|s| + v.1 + v.0] == t[v.1..v.1 + v.0];
      }
    }
  }

  function SliceBytes(b: seq<byte>): seq<byte> {
    VarintBytes(|b|) + b
  }

  lemma SliceReads(b: Bytes, s: Bytes, i: nat)
    requires i + |SliceBytes(b)| == |s| && s[i..] == SliceBytes(b)
    ensures ReadSlice(s, i) == Ok((b, |s|))
  {
    hide VarintBytes, DecodeVarint, SliceEnd;
    var n := |VarintBytes(|b|)|;
    var tail := s[i..];
    assert tail[..n] == VarintBytes(|b|) && tail[n..] == b;
    assert s[i..i + n] == tail[..n];
    VarintRoundTrip(|b|, s, i);
    SliceEndIsExact(i + n, |b|, |s|);
    assert s[i + n..|s|] == tail[n..];
  }

  // ----- skipping

  /** Where the field whose tag starts at `i` ends, inside `depth` open groups. It may lie past the end. */
  function SkipFrom(s: Bytes, i: nat, depth: nat): (r: Result<nat>)
    requires i <= |s|
    ensures r.Ok? ==> i < r.value
    decreases |s| - i
  {
    if i >= |s| then Err(UnexpectedEOF)
    else
      var tag :- DecodeVarint(s, i);
      var j := tag.1;
      var wireType := tag.0 % 8;
      if wireType == 3 then
        SkipFrom(s, j, depth + 1)
      else if wireType == 4 then
        if depth == 0 then Err(UnexpectedEndOfGroup)
        else if depth == 1 then Ok(j)
        else SkipFrom(s, j, depth - 1)
      else
        var next :- SkipBody(s, j, wireType);
        if depth == 0 then Ok(next)
        else if next > |s| then Err(UnexpectedEOF)
        else SkipFrom(s, next, depth)
  }

  /** Past the value of a non-group field. */
  function SkipBody(s: Bytes, j: nat, wireType: nat): (r: Result<nat>)
    requires j <= |s|
    ensures r.Ok? ==> j <= r.value
  {
    if wireType == 0 then
      var v :- DecodeVarint(s, j);
      Ok(v.1)
    else if wireType == 1 then Advance(j, 8)
    else if wireType == 2 then
      var v :- DecodeVarint(s, j);
      var length := Int64(v.0);
      if length < 0 then Err(InvalidLength) else Advance(v.1, length)
    else if wireType == 5 then Advance(j, 4)
    else Err(IllegalWireType)
  }

  function Advance(j: nat, n: nat): (r: Result<nat>)
    requires j < TWO_63 && n < TWO_63
    ensures r.Ok? ==> r.value == j + n
  {
    var next := Wrap64(j + n);
    if next < 0 then Err(InvalidLength) else Ok(next)
  }

  /** The unknown-field branch: skip the record at `i`, then check the sum and the bound. */
  function UnknownEnd(s: Bytes, i: nat): (r: Result<nat>)
    requires i < |s|
    ensures r.Ok? ==> i < r.value <= |s|
  {
    var n :- SkipFrom(s[i..], 0, 0);
    if n >= TWO_63 || Wrap64(i + n) < 0 then Err(InvalidLength)
    else if i + n > |s| then Err(UnexpectedEOF)
    else Ok(i + n)
  }

  lemma {:induction false} SkipInRange(s: Bytes, i: nat, depth: nat)
    requires i <= |s| && SkipFrom(s, i, depth).Ok?
    ensures SkipFrom(s, i, depth).value < TWO_63
    decreases |s| - i
  {
    var tag := DecodeVarint(s, i).value;
    var j, wireType := tag.1, tag.0 % 8;
    if wireType == 3 {
      SkipInRange(s, j, depth + 1);
    } else if wireType == 4 {
      if depth > 1 {
        SkipInRange(s, j, depth - 1);
      }
    } else if depth > 0 {
      SkipInRange(s, SkipBody(s, j, wireType).value, depth);
    }
  }

  /** The checks after skipping are exact too: they pass just when the record ends inside the input. */
  lemma UnknownEndIsExact(s: Bytes, i: nat)
    requires i < |s|
    ensures
      var n := SkipFrom(s[i..], 0, 0);
      && (UnknownEnd(s, i).Ok? <==> n.Ok? && i + n.value <= |s|)
      && (UnknownEnd(s, i).Ok? ==> UnknownEnd(s, i).value == i + n.value)
  {
    if SkipFrom(s[i..], 0, 0).Ok? {
      SkipInRange(s[i..], 0, 0);
    }
  }

  lemma {:induction false} SkipExtend(s: Bytes, t: seq<byte>, i: nat, depth: nat)
    requires |s + t| < TWO_63 && i <= |s|
    requires SkipFrom(s, i, depth).Ok? && SkipFrom(s, i, depth).value <= |s|
    ensures SkipFrom(s + t, i, depth) == SkipFrom(s, i, depth)
    decreases |s| - i
  {
    VarintLocality(s, t, i);
    var tag := DecodeVarint(s, i).value;
    var j, wireType := tag.1, tag.0 % 8;
    if wireType == 3 {
      SkipExtend(s, t, j, depth + 1);
    } else if wireType == 4 {
      if depth > 1 {
        SkipExtend(s, t, j, depth - 1);
      }
    } else {
      VarintLocality(s, t, j);
      if depth > 0 {
        SkipExtend(s, t, SkipBody(s, j, wireType).value, depth);
      }
    }
  }

  ghost predicate SameOutcome<T>(a: Result<T>, b: Result<T>) {
    (a.Ok? <==> b.Ok?) && (a.Ok? ==> a.value == b.value)
  }

  /** `a` is `b` read at a larger index: the same, but for a length too large for any input, whose sum with the
      index may wrap and be called invalid before it is called too long. */
  ghost predicate Shifted<T>(a: Result<T>, b: Result<T>) {
    && SameOutcome(a, b)
    && (a.Err? ==> a.error == b.error || (a.error.InvalidLength? && b.error.UnexpectedEOF?))
  }

  /** An unknown record that ends inside `s` ends there with more input behind it; past `s` only the rest
      matters. */
  lemma UnknownEndLocality(s: Bytes, t: Bytes, i: nat)
    requires |s + t| < TWO_63
    ensures i < |s| && UnknownEnd(s, i).Ok? ==> UnknownEnd(s + t, i) == UnknownEnd(s, i)
    ensures i < |t| ==>
      var alone := UnknownEnd(t, i);
      Shifted(UnknownEnd(s + t, |s| + i), if alone.Ok? then Ok(|s| + alone.value) else alone)
  {
    hide SkipFrom;
    if i < |s| && UnknownEnd(s, i).Ok? {
      assert (s + t)[i..] == s[i..] + t;
      SkipExtend(s[i..], t, 0, 0);
    }
    if i < |t| {
      assert (s + t)[|s| + i..] == t[i..];
    }
  }

  // ----- tags

  datatype Tag = Tag(number: int, wireType: nat)

  /** The start of every record: field number as `int32`, wire type, and the two checks on them. */
  function ReadTag(s: seq<byte>, i: nat): (r: Result<(Tag, nat)>)
    ensures r.Ok? ==> i < r.value.1 <= |s| && r.value.0.number > 0
  {
    var wire :- DecodeVarint(s, i);
    var tag := Tag(Int32(wire.0 / 8), wire.0 % 8);
    if tag.wireType == 4 then Err(EndGroup)
    else if tag.number <= 0 then Err(IllegalTag)
    else Ok((tag, wire.1))
  }

  lemma TagLocality(s: seq<byte>, t: seq<byte>, i: nat)
    ensures ReadTag(s, i).Ok? ==> ReadTag(s + t, i) == ReadTag(s, i)
    ensures ReadTag(s + t, |s| + i) == Moved(ReadTag(t, i), |s|)
  {
    VarintLocality(s, t, i);
  }

  function TagByte(number: nat, wireType: nat): byte
    requires number <= 15 && wireType < 8
  {
    number * 8 + wireType
  }

  lemma TagReads(number: nat, wireType: nat, rest: seq<byte>)
    requires 1 <= number <= 15 && wireType < 8 && wireType != 4
    ensures ReadTag([TagByte(number, wireType)] + rest, 0) == Ok((Tag(number, wireType), 1))
  {
    var v := TagByte(number, wireType);
    assert VarintBytes(v) == [v];
    VarintAtStart(v, rest);
  }
}
