/** Hot methods: which methods the two generators pick, and the packing code each emits
    (cmd/protoc-gen-go-godash/main.go, cmd/protoc-gen-dart-godash/main.go). */
module HotCalls {
  import opened Words
  import H = HotLayout

  // ----- selection

  datatype Method = Method(
    name: string, streamingClient: bool, streamingServer: bool, hot: bool,
    input: seq<H.FieldDesc>, output: seq<H.FieldDesc>)

  datatype HotMethod = HotMethod(service: nat, name: string, req: H.Layout, resp: H.Layout)

  predicate IsHotMethod(m: Method) {
    && !m.streamingClient && !m.streamingServer && m.hot
    && H.Computed(m.input).Packable? && H.Computed(m.output).Packable?
  }

  function Selected(service: nat, ms: seq<Method>): seq<HotMethod> {
    if ms == [] then []
    else
      var m := ms[|ms| - 1];
      Selected(service, ms[..|ms| - 1]) +
      if IsHotMethod(m) then
        [HotMethod(service, m.name, H.Computed(m.input).value, H.Computed(m.output).value)]
      else []
  }

  function SelectedAll(services: seq<seq<Method>>): seq<HotMethod> {
    if services == [] then []
    else SelectedAll(services[..|services| - 1]) + Selected(|services| - 1, services[|services| - 1])
  }

  lemma SelectedOne(service: nat, m: Method)
    ensures Selected(service, [m]) ==
      if IsHotMethod(m) then
        [HotMethod(service, m.name, H.Computed(m.input).value, H.Computed(m.output).value)]
      else []
  {
    assert [m][..0] == [];
  }

  lemma BothPackIff(m: Method)
    ensures H.Computed(m.input).Packable? && H.Computed(m.output).Packable? <==>
            forall d :: d in m.input + m.output ==> H.Plain(d)
  {
    hide H.Computed, H.Plain;
    H.PacksIff(m.input);
    H.PacksIff(m.output);
    forall d
      ensures d in m.input + m.output <==> d in m.input || d in m.output
    {
    }
  }

  /** What a method must be to get a hot call: unary, marked, and plain fields only on either side. */
  ghost predicate Qualifies(m: Method) {
    && !m.streamingClient && !m.streamingServer && m.hot
    && (forall d :: d in m.input ==> H.Plain(d)) && (forall d :: d in m.output ==> H.Plain(d))
  }

  /** Where the qualifying methods stand, in order. */
  ghost function Qualified(ms: seq<Method>): (at: seq<nat>)
    ensures forall i: nat :: i in at <==> i < |ms| && Qualifies(ms[i])
    ensures forall j, k :: 0 <= j < k < |at| ==> at[j] < at[k]
  {
    if ms == [] then []
    else
      var n := |ms| - 1;
      var before := Qualified(ms[..n]);
      assert forall k :: 0 <= k < |before| ==> before[k] in before;
      if Qualifies(ms[n]) then before + [n] else before
  }

  /** The entry of a method: its name and the layouts of both its messages. */
  ghost predicate EntryOf(h: HotMethod, service: nat, m: Method) {
    && h.service == service && h.name == m.name
    && H.Computed(m.input) == H.Packable(h.req) && H.Computed(m.output) == H.Packable(h.resp)
  }

  lemma QualifiedPacks(m: Method)
    ensures IsHotMethod(m) <==> Qualifies(m)
    ensures IsHotMethod(m) ==> H.Computed(m.input).Packable? && H.Computed(m.output).Packable?
  {
    hide H.Computed, H.Plain;
    H.PacksIff(m.input);
    H.PacksIff(m.output);
  }

  /** A service's list has exactly one entry for each method that qualifies, in the order declared. */
  lemma {:induction false} SelectionIsExact(service: nat, ms: seq<Method>)
    ensures |Selected(service, ms)| == |Qualified(ms)|
    ensures forall k :: 0 <= k < |Qualified(ms)| ==>
              Qualified(ms)[k] in Qualified(ms) && EntryOf(Selected(service, ms)[k], service, ms[Qualified(ms)[k]])
    decreases |ms|
  {
    hide H.Computed, Qualifies, IsHotMethod;
    if ms != [] {
      var n := |ms| - 1;
      SelectionIsExact(service, ms[..n]);
      QualifiedPacks(ms[n]);
      SelectedOne(service, ms[n]);
      SelectedSnoc(service, ms[..n], ms[n]);
      assert ms == ms[..n] + [ms[n]];
      var before := Qualified(ms[..n]);
      assert forall k :: 0 <= k < |before| ==> before[k] in before;
      forall k | 0 <= k < |Qualified(ms)|
        ensures EntryOf(Selected(service, ms)[k], service, ms[Qualified(ms)[k]])
      {
        assert k < |before| ==> ms[..n][before[k]] == ms[before[k]];
      }
    }
  }

  /** One method through the filters of either loop. */
  method Consider(service: nat, m: Method) returns (picked: seq<HotMethod>)
    ensures picked == Selected(service, [m])
    ensures
      if m.streamingClient || m.streamingServer || !m.hot
         || (exists d :: d in m.input + m.output && !H.Plain(d))
      then picked == []
      else |picked| == 1 && EntryOf(picked[0], service, m)
  {
    BothPackIff(m);
    hide H.Computed, H.Plain;
    SelectedOne(service, m);
    if m.streamingClient || m.streamingServer {
      return [];
    }
    if !m.hot {
      return [];
    }
    var req := H.Compute(m.input);
    if req.NotPackable? {
      return [];
    }
    var resp := H.Compute(m.output);
    if resp.NotPackable? {
      return [];
    }
    return [HotMethod(service, m.name, req.value, resp.value)];
  }

  lemma NothingSelected(service: nat, ms: seq<Method>)
    requires ms == []
    ensures Selected(service, ms) == []
  {
  }

  lemma SelectedSnoc(service: nat, ms: seq<Method>, m: Method)
    ensures Selected(service, ms + [m]) == Selected(service, ms) + Selected(service, [m])
  {
    hide IsHotMethod, H.Computed;
    assert (ms + [m])[..|ms|] == ms && [m][..0] == [];
  }

  /** The Dart generator's loop over one service. */
  method HotMethodsFor(service: nat, ms: seq<Method>) returns (out: seq<HotMethod>)
    ensures out == Selected(service, ms)
  {
    out := [];
    for i := 0 to |ms|
      invariant out == Selected(service, ms[..i])
    {
      var picked := Consider(service, ms[i]);
      SelectedSnoc(service, ms[..i], ms[i]);
      assert ms[..i + 1] == ms[..i] + [ms[i]];
      out := out + picked;
    }
    assert ms[..|ms|] == ms;
  }

  /** The Go generator's nested loops over all services. */
  method CollectHotMethods(services: seq<seq<Method>>) returns (out: seq<HotMethod>)
    ensures out == SelectedAll(services)
  {
    hide Selected, Qualifies, EntryOf, H.Plain, H.Computed;
    out := [];
    assert services[..0] == [];
    for s := 0 to |services|
      invariant out == SelectedAll(services[..s])
    {
      ghost var before := out;
      var ms := services[s];
      assert before + Selected(s, ms[..0]) == before by {
        NothingSelected(s, ms[..0]);
      }
      for i := 0 to |ms|
        invariant out == before + Selected(s, ms[..i])
      {
        var picked := Consider(s, ms[i]);
        SelectedSnoc(s, ms[..i], ms[i]);
        assert ms[..i + 1] == ms[..i] + [ms[i]];
        assert before + Selected(s, ms[..i]) + picked == before + Selected(s, ms[..i + 1]);
        out := out + picked;
      }
      assert ms[..|ms|] == ms && services[..s + 1][..s] == services[..s];
    }
    assert services[..|services|] == services;
  }

  /** The service's own part of the Go list is the Dart list for that service: same methods, same order, same
      layouts. */
  lemma {:induction false} GeneratorsAgree(services: seq<seq<Method>>, s: nat)
    requires s < |services|
    ensures OfService(SelectedAll(services), s) == Selected(s, services[s])
    decreases |services|
  {
    var last := |services| - 1;
    var before := services[..last];
    OfServiceConcat(SelectedAll(before), Selected(last, services[last]), s);
    SelectedIsOwn(last, services[last], s);
    if s < last {
      GeneratorsAgree(before, s);
      assert OfService(SelectedAll(before), s) + [] == OfService(SelectedAll(before), s);
    } else {
      LaterServicesAbsent(before, s);
      assert [] + Selected(last, services[last]) == Selected(last, services[last]);
    }
  }

  ghost function OfService(hs: seq<HotMethod>, s: nat): seq<HotMethod> {
    if hs == [] then []
    else OfService(hs[..|hs| - 1], s) + if hs[|hs| - 1].service == s then [hs[|hs| - 1]] else []
  }

  lemma {:induction false} OfServiceConcat(a: seq<HotMethod>, b: seq<HotMethod>, s: nat)
    ensures OfService(a + b, s) == OfService(a, s) + OfService(b, s)
  {
    if b == [] {
      assert a + b == a;
    } else {
      OfServiceConcat(a, b[..|b| - 1], s);
      assert (a + b)[..|a + b| - 1] == a + b[..|b| - 1];
    }
  }

  lemma {:induction false} SelectedIsOwn(service: nat, ms: seq<Method>, s: nat)
    ensures OfService(Selected(service, ms), s) == if service == s then Selected(service, ms) else []
  {
    hide IsHotMethod, H.Computed;
    if ms != [] {
      var before := Selected(service, ms[..|ms| - 1]);
      SelectedIsOwn(service, ms[..|ms| - 1], s);
      if IsHotMethod(ms[|ms| - 1]) {
        var all := Selected(service, ms);
        assert all[..|all| - 1] == before;
      } else {
        assert before + [] == before;
      }
    }
  }

  lemma {:induction false} LaterServicesAbsent(services: seq<seq<Method>>, s: nat)
    requires |services| <= s
    ensures OfService(SelectedAll(services), s) == []
  {
    if services != [] {
      var last := |services| - 1;
      LaterServicesAbsent(services[..last], s);
      OfServiceConcat(SelectedAll(services[..last]), Selected(last, services[last]), s);
      SelectedIsOwn(last, services[last], s);
    }
  }

  // ----- values

  /** Floats by their bits. */
  datatype Value = Flag(b: bool) | Whole(n: int) | Bits(bits: nat)

  predicate HasType(t: H.GoType, v: Value) {
    match t
    case GoBool => v.Flag?
    case GoInt32 => v.Whole? && -TWO_31 <= v.n < TWO_31
    case GoUint32 => v.Whole? && 0 <= v.n < TWO_32
    case GoInt64 => v.Whole? && -TWO_63 <= v.n < TWO_63
    case GoUint64 => v.Whole? && 0 <= v.n < TWO_64
    case GoFloat32 => v.Bits? && v.bits < TWO_32
    case GoFloat64 => v.Bits? && v.bits < TWO_64
  }

  /** `*(*T)(ptr) = v` on a little-endian machine. */
  function GoStore(t: H.GoType, v: Value): (s: seq<byte>)
    requires HasType(t, v)
    ensures |s| == H.SizeOf(t)
  {
    match v
    case Flag(b) => [if b then 1 else 0]
    case Whole(n) => ToLittleEndian(if n >= 0 then n else n + (if t.GoInt32? then TWO_32 else TWO_64), H.SizeOf(t))
    case Bits(bits) => ToLittleEndian(bits, H.SizeOf(t))
  }

  /** `*(*T)(ptr)`. */
  function GoLoad(t: H.GoType, s: seq<byte>): Value
    requires |s| == H.SizeOf(t)
  {
    var u := FromLittleEndian(s);
    match t
    case GoBool => Flag(u != 0)
    case GoInt32 => Whole(if u >= TWO_31 then u - TWO_32 else u)
    case GoInt64 => Whole(if u >= TWO_63 then u - TWO_64 else u)
    case GoUint32 => Whole(u)
    case GoUint64 => Whole(u)
    case GoFloat32 => Bits(u)
    case GoFloat64 => Bits(u)
  }

  /** The `ByteData` accessors. */
  datatype Accessor = Uint8 | Int32 | Uint32 | Int64 | Uint64 | Float32 | Float64

  function DartAccessor(t: H.GoType): Accessor {
    match t
    case GoInt32 => Int32
    case GoUint32 => Uint32
    case GoInt64 => Int64
    case GoUint64 => Uint64
    case GoFloat32 => Float32
    case GoFloat64 => Float64
    case GoBool => Uint8
  }

  function Width(a: Accessor): nat {
    match a
    case Uint8 => 1
    case Int32 => 4
    case Uint32 => 4
    case Float32 => 4
    case Int64 => 8
    case Uint64 => 8
    case Float64 => 8
  }

  function Modulus(a: Accessor): nat {
    match Width(a)
    case 1 => 256
    case 4 => TWO_32
    case _ => TWO_64
  }

  /** The setters keep the low bytes of the two's-complement value, in host (little-endian) order. */
  function DartSet(a: Accessor, v: Value): (s: seq<byte>)
    ensures |s| == Width(a)
  {
    match v
    case Flag(b) => ToLittleEndian(if b then 1 else 0, Width(a))
    case Whole(n) => ToLittleEndian(n % Modulus(a), Width(a))
    case Bits(bits) => ToLittleEndian(bits % Modulus(a), Width(a))
  }

  function DartGet(a: Accessor, s: seq<byte>): Value
    requires |s| == Width(a)
  {
    var u := FromLittleEndian(s);
    match a
    case Uint8 => Flag(u != 0)
    case Int32 => Whole(if u < TWO_31 then u else u - TWO_32)
    case Int64 => Whole(if u < TWO_63 then u else u - TWO_64)
    case Uint32 => Whole(u)
    case Uint64 => Whole(u)
    case Float32 => Bits(u)
    case Float64 => Bits(u)
  }

  // ----- static types of the emitted Dart

  datatype DartType = BoolType | IntType | DoubleType | FixnumType

  /** The type of a field's getter in the generated Dart message. */
  function FieldType(t: H.GoType): DartType {
    match t
    case GoBool => BoolType
    case GoInt32 => IntType
    case GoUint32 => IntType
    case GoInt64 => FixnumType
    case GoUint64 => FixnumType
    case GoFloat32 => DoubleType
    case GoFloat64 => DoubleType
  }

  /** The type a `ByteData` accessor takes and returns. */
  function AccessorType(a: Accessor): DartType {
    if a.Float32? || a.Float64? then DoubleType else IntType
  }

  /** The emitted statements assign between a field and its accessor; a bool goes through a comparison. */
  predicate TypeChecks(t: H.GoType) {
    t.GoBool? || FieldType(t) == AccessorType(DartAccessor(t))
  }

  predicate IsWideInteger(k: H.Kind) {
    k.Int64Kind? || k.Sint64Kind? || k.Sfixed64Kind? || k.Uint64Kind? || k.Fixed64Kind?
  }

  lemma KindDecides(d: H.FieldDesc)
    requires H.ScalarType(d).Packable?
    ensures TypeChecks(H.ScalarType(d).value) <==> !IsWideInteger(d.kind)
  {
  }

  lemma {:induction false} PlacedTypeChecksIff(fs: seq<H.FieldDesc>, off: nat, align: nat)
    requires H.Place(fs, off, align).Packable?
    ensures (forall f :: f in H.Place(fs, off, align).value.fields ==> TypeChecks(f.goType)) <==>
            (forall d :: d in fs ==> !IsWideInteger(d.kind))
  {
    hide TypeChecks, IsWideInteger, H.ScalarType, H.AlignUp;
    if fs != [] {
      KindDecides(fs[0]);
      var t := H.ScalarType(fs[0]).value;
      var at := H.AlignUp(off, H.SizeOf(t));
      var rest := H.Place(fs[1..], at + H.SizeOf(t), H.MaxSize(align, t)).value.fields;
      PlacedTypeChecksIff(fs[1..], at + H.SizeOf(t), H.MaxSize(align, t));
      assert H.Place(fs, off, align).value.fields == [H.Field(fs[0].number, at, t)] + rest;
      assert fs == [fs[0]] + fs[1..];
    }
  }

  /** The Dart code emitted for a packable message type-checks exactly when no field is a 64-bit integer. */
  lemma DartTypeChecksIff(m: seq<H.FieldDesc>)
    requires H.Computed(m).Packable?
    ensures
      (forall f :: f in H.Computed(m).value.fields ==> TypeChecks(f.goType)) <==>
      (forall d :: d in m ==> !IsWideInteger(d.kind))
  {
    hide TypeChecks, IsWideInteger, H.Place;
    PlacedTypeChecksIff(H.Sorted(m), 0, 1);
    forall d
      ensures d in m <==> d in H.Sorted(m)
    {
      assert d in m <==> d in multiset(H.Sorted(m));
    }
  }

  datatype Side = Go | Dart

  function Store(side: Side, t: H.GoType, v: Value): (s: seq<byte>)
    requires HasType(t, v)
    ensures |s| == H.SizeOf(t)
  {
    if side.Go? then GoStore(t, v) else DartSet(DartAccessor(t), v)
  }

  function Load(side: Side, t: H.GoType, s: seq<byte>): Value
    requires |s| == H.SizeOf(t)
  {
    if side.Go? then GoLoad(t, s) else DartGet(DartAccessor(t), s)
  }

  lemma ByteReads(n: nat)
    requires n < 256
    ensures FromLittleEndian([n]) == n && ToLittleEndian(n, 1) == [n]
  {
    assert [n][1..] == [];
    assert ToLittleEndian(n / 256, 0) == [];
  }

  /** The word a value is stored as. */
  function Word(t: H.GoType, v: Value): nat
    requires HasType(t, v)
  {
    match v
    case Flag(b) => if b then 1 else 0
    case Whole(n) => if n >= 0 then n else n + (if t.GoInt32? then TWO_32 else TWO_64)
    case Bits(bits) => bits
  }

  lemma WordFits(t: H.GoType, v: Value)
    requires HasType(t, v)
    ensures Word(t, v) < Pow256(H.SizeOf(t))
  {
    hide Pow256;
    WordSizes();
  }

  lemma WordIsLowBytes(t: H.GoType, v: Value)
    requires HasType(t, v)
    ensures v.Whole? ==> v.n % Modulus(DartAccessor(t)) == Word(t, v)
    ensures v.Bits? ==> v.bits % Modulus(DartAccessor(t)) == Word(t, v)
  {
    if v.Whole? {
      if t.GoInt32? || t.GoUint32? {
        Wraps(v.n, TWO_32);
      } else {
        Wraps(v.n, TWO_64);
      }
    }
  }

  lemma Wraps(n: int, m: int)
    requires m > 0 && -m <= n < m
    ensures n % m == if n >= 0 then n else n + m
  {
    if n < 0 {
      assert (n + m) % m == n + m;
    }
  }

  /** Both languages write the same bytes: the little-endian word. */
  lemma SidesWriteAlike(t: H.GoType, v: Value)
    requires HasType(t, v)
    ensures GoStore(t, v) == ToLittleEndian(Word(t, v), H.SizeOf(t)) == DartSet(DartAccessor(t), v)
  {
    hide ToLittleEndian, Modulus;
    ByteReads(0);
    ByteReads(1);
    WordIsLowBytes(t, v);
  }

  /** A value stored by either language is loaded unchanged by either. */
  lemma StoredLoads(writer: Side, reader: Side, t: H.GoType, v: Value)
    requires HasType(t, v)
    ensures Load(reader, t, Store(writer, t, v)) == v
  {
    hide ToLittleEndian, FromLittleEndian, GoStore, DartSet;
    SidesWriteAlike(t, v);
    WordFits(t, v);
    LittleEndianRoundTrip(Word(t, v), H.SizeOf(t));
  }

  // ----- whole messages

  ghost predicate Matches(fields: seq<H.Field>, vs: seq<Value>) {
    |fields| == |vs| && forall i :: 0 <= i < |vs| ==> HasType(fields[i].goType, vs[i])
  }

  /** The fields lie inside a buffer, naturally, from `off` on. */
  ghost predicate Fits(fields: seq<H.Field>, off: nat, length: nat) {
    H.Natural(fields, off) && H.End(fields, off) <= length
  }

  lemma FitsTail(fields: seq<H.Field>, off: nat, length: nat)
    requires Fits(fields, off, length) && fields != []
    ensures fields[0].offset + H.SizeOf(fields[0].goType) <= length
    ensures Fits(fields[1..], fields[0].offset + H.SizeOf(fields[0].goType), length)
  {
    EndIsPast(fields[1..], fields[0].offset + H.SizeOf(fields[0].goType));
  }

  lemma {:induction false} EndIsPast(fields: seq<H.Field>, off: nat)
    requires H.Natural(fields, off)
    ensures off <= H.End(fields, off)
  {
    if fields != [] {
      EndIsPast(fields[1..], fields[0].offset + H.SizeOf(fields[0].goType));
    }
  }

  /** The buffer after the emitted stores, one per field. */
  ghost function Packed(side: Side, buf: seq<byte>, fields: seq<H.Field>, vs: seq<Value>, off: nat): (r: seq<byte>)
    requires Matches(fields, vs) && Fits(fields, off, |buf|)
    ensures |r| == |buf|
    decreases |fields|
  {
    if fields == [] then buf
    else
      FitsTail(fields, off, |buf|);
      var f := fields[0];
      Packed(side, Splice(buf, f.offset, Store(side, f.goType, vs[0])), fields[1..], vs[1..],
        f.offset + H.SizeOf(f.goType))
  }

  /** What the emitted loads read, one per field. */
  ghost function Unpacked(side: Side, buf: seq<byte>, fields: seq<H.Field>, off: nat): seq<Value>
    requires Fits(fields, off, |buf|)
    decreases |fields|
  {
    if fields == [] then []
    else
      FitsTail(fields, off, |buf|);
      var f := fields[0];
      var end := f.offset + H.SizeOf(f.goType);
      [Load(side, f.goType, buf[f.offset..end])] + Unpacked(side, buf, fields[1..], end)
  }

  /** Stores never reach back below the offset they start from. */
  lemma {:induction false} PackedKeepsBelow(
    side: Side, buf: seq<byte>, fields: seq<H.Field>, vs: seq<Value>, off: nat, lo: nat, hi: nat)
    requires Matches(fields, vs) && Fits(fields, off, |buf|) && lo <= hi <= off && hi <= |buf|
    ensures Packed(side, buf, fields, vs, off)[lo..hi] == buf[lo..hi]
    decreases |fields|
  {
    if fields != [] {
      FitsTail(fields, off, |buf|);
      var f := fields[0];
      var s := Store(side, f.goType, vs[0]);
      SpliceElsewhere(buf, f.offset, s, lo, hi);
      PackedKeepsBelow(side, Splice(buf, f.offset, s), fields[1..], vs[1..], f.offset + H.SizeOf(f.goType), lo, hi);
    }
  }

  lemma {:induction false} UnpackedPacked(
    writer: Side, reader: Side, buf: seq<byte>, fields: seq<H.Field>, vs: seq<Value>, off: nat)
    requires Matches(fields, vs) && Fits(fields, off, |buf|)
    ensures Unpacked(reader, Packed(writer, buf, fields, vs, off), fields, off) == vs
    decreases |fields|
  {
    hide Store, Load;
    if fields != [] {
      FitsTail(fields, off, |buf|);
      var f := fields[0];
      var end := f.offset + H.SizeOf(f.goType);
      var s := Store(writer, f.goType, vs[0]);
      var next := Splice(buf, f.offset, s);
      UnpackedPacked(writer, reader, next, fields[1..], vs[1..], end);
      PackedKeepsBelow(writer, next, fields[1..], vs[1..], end, f.offset, end);
      assert next[f.offset..end] == s;
      StoredLoads(writer, reader, f.goType, vs[0]);
      assert vs == [vs[0]] + vs[1..];
    }
  }

  /** Each field's bytes stand at its offset, as the little-endian word of its value. */
  lemma {:induction false} PackedAt(
    side: Side, buf: seq<byte>, fields: seq<H.Field>, vs: seq<Value>, off: nat, i: nat)
    requires Matches(fields, vs) && Fits(fields, off, |buf|) && i < |fields|
    ensures
      var end := fields[i].offset + H.SizeOf(fields[i].goType);
      && off <= fields[i].offset && end <= |buf|
      && Packed(side, buf, fields, vs, off)[fields[i].offset..end] ==
         ToLittleEndian(Word(fields[i].goType, vs[i]), H.SizeOf(fields[i].goType))
    decreases |fields|
  {
    hide Store, Word, ToLittleEndian;
    FitsTail(fields, off, |buf|);
    var f := fields[0];
    var end := f.offset + H.SizeOf(f.goType);
    var s := Store(side, f.goType, vs[0]);
    var next := Splice(buf, f.offset, s);
    if i == 0 {
      PackedKeepsBelow(side, next, fields[1..], vs[1..], end, f.offset, end);
      assert next[f.offset..end] == s;
      StoreIsWord(side, f.goType, vs[0]);
    } else {
      PackedAt(side, next, fields[1..], vs[1..], end, i - 1);
    }
  }

  lemma StoreIsWord(side: Side, t: H.GoType, v: Value)
    requires HasType(t, v)
    ensures Store(side, t, v) == ToLittleEndian(Word(t, v), H.SizeOf(t))
  {
    SidesWriteAlike(t, v);
  }

  /** For any message both sides can pack: what one language packs into a buffer of the computed size, whatever
      it held before, the other unpacks unchanged. */
  lemma PackedMessageReadsBack(m: seq<H.FieldDesc>, writer: Side, reader: Side, buf: seq<byte>, vs: seq<Value>)
    requires H.DistinctNumbers(m) && H.Computed(m).Packable?
    requires |buf| == H.Computed(m).value.size && Matches(H.Computed(m).value.fields, vs)
    ensures Fits(H.Computed(m).value.fields, 0, |buf|)
    ensures
      var fields := H.Computed(m).value.fields;
      Unpacked(reader, Packed(writer, buf, fields, vs, 0), fields, 0) == vs
  {
    hide H.Computed, Packed, Unpacked;
    H.LayoutIsMinimal(m, H.Layout([], 0));
    UnpackedPacked(writer, reader, buf, H.Computed(m).value.fields, vs, 0);
  }
}
