/** The packed layout of internal/hotlayout/hotlayout.go: a greedy allocator shared by both code generators. */
module HotLayout {

  datatype Kind =
    | BoolKind
    | Int32Kind | Sint32Kind | Sfixed32Kind | Uint32Kind | Fixed32Kind
    | Int64Kind | Sint64Kind | Sfixed64Kind | Uint64Kind | Fixed64Kind
    | FloatKind | DoubleKind
    | OtherKind // enum, string, bytes, message, group

  datatype FieldDesc = FieldDesc(
    number: nat, kind: Kind, isMap: bool, isList: bool, inOneof: bool, hasPresence: bool)

  datatype GoType = GoBool | GoInt32 | GoUint32 | GoInt64 | GoUint64 | GoFloat32 | GoFloat64

  datatype Reason = MapField | RepeatedField | OneofField | PresenceField | UnsupportedKind

  datatype Result<+T> = Packable(value: T) | NotPackable(number: nat, reason: Reason) {
    predicate IsFailure() { NotPackable? }

    function PropagateFailure<U>(): Result<U>
      requires NotPackable?
    {
      NotPackable(number, reason)
    }

    function Extract(): T
      requires Packable?
    {
      value
    }
  }

  datatype Field = Field(number: nat, offset: nat, goType: GoType)

  datatype Layout = Layout(fields: seq<Field>, size: nat)

  function SizeOf(t: GoType): nat {
    match t
    case GoBool => 1
    case GoInt32 => 4
    case GoUint32 => 4
    case GoFloat32 => 4
    case GoInt64 => 8
    case GoUint64 => 8
    case GoFloat64 => 8
  }

  function ScalarType(f: FieldDesc): Result<GoType> {
    if f.isMap then NotPackable(f.number, MapField)
    else if f.isList then NotPackable(f.number, RepeatedField)
    else if f.inOneof then NotPackable(f.number, OneofField)
    else if f.hasPresence then NotPackable(f.number, PresenceField)
    else match f.kind
      case BoolKind => Packable(GoBool)
      case Int32Kind => Packable(GoInt32)
      case Sint32Kind => Packable(GoInt32)
      case Sfixed32Kind => Packable(GoInt32)
      case Uint32Kind => Packable(GoUint32)
      case Fixed32Kind => Packable(GoUint32)
      case Int64Kind => Packable(GoInt64)
      case Sint64Kind => Packable(GoInt64)
      case Sfixed64Kind => Packable(GoInt64)
      case Uint64Kind => Packable(GoUint64)
      case Fixed64Kind => Packable(GoUint64)
      case FloatKind => Packable(GoFloat32)
      case DoubleKind => Packable(GoFloat64)
      case OtherKind => NotPackable(f.number, UnsupportedKind)
  }

  function AlignUp(x: nat, a: nat): nat {
    if a <= 1 then x else (x + a - 1) / a * a
  }

  predicate IsSize(n: nat) {
    n == 1 || n == 4 || n == 8
  }

  ghost predicate Multiple(n: nat, a: nat) {
    a > 0 && n % a == 0
  }

  /** `AlignUp` is the least multiple of the alignment that is not below `x`. */
  lemma AlignUpIsLeast(x: nat, a: nat, y: nat)
    requires IsSize(a)
    ensures Multiple(AlignUp(x, a), a) && AlignUp(x, a) >= x
    ensures y >= x && Multiple(y, a) ==> AlignUp(x, a) <= y
  {
    if a == 4 {
      FoursAreLeast(x, y);
    } else if a == 8 {
      EightsAreLeast(x, y);
    }
  }

  lemma FoursAreLeast(x: nat, y: nat)
    ensures AlignUp(x, 4) % 4 == 0 && AlignUp(x, 4) >= x
    ensures y >= x && y % 4 == 0 ==> AlignUp(x, 4) <= y
  {
  }

  lemma EightsAreLeast(x: nat, y: nat)
    ensures AlignUp(x, 8) % 8 == 0 && AlignUp(x, 8) >= x
    ensures y >= x && y % 8 == 0 ==> AlignUp(x, 8) <= y
  {
  }

  // ----- ascending field numbers

  function Inserted(f: FieldDesc, s: seq<FieldDesc>): (r: seq<FieldDesc>)
    ensures multiset(r) == multiset(s) + multiset{f} && |r| == |s| + 1
  {
    if s == [] || f.number < s[0].number then [f] + s
    else
      assert s == [s[0]] + s[1..];
      [s[0]] + Inserted(f, s[1..])
  }

  function Sorted(s: seq<FieldDesc>): (r: seq<FieldDesc>)
    ensures multiset(r) == multiset(s) && |r| == |s|
  {
    if s == [] then []
    else
      assert s == [s[0]] + s[1..];
      Inserted(s[0], Sorted(s[1..]))
  }

  ghost predicate Ascending(s: seq<FieldDesc>) {
    forall i, j :: 0 <= i < j < |s| ==> s[i].number < s[j].number
  }

  ghost predicate DistinctNumbers(s: seq<FieldDesc>) {
    forall i, j :: 0 <= i < j < |s| ==> s[i].number != s[j].number
  }

  lemma {:induction false} InsertedAscends(f: FieldDesc, s: seq<FieldDesc>)
    requires Ascending(s) && forall g :: g in s ==> g.number != f.number
    ensures Ascending(Inserted(f, s))
  {
    if s != [] && s[0].number < f.number {
      InsertedAscends(f, s[1..]);
      var rest := Inserted(f, s[1..]);
      forall g | g in rest
        ensures s[0].number < g.number
      {
        assert g in multiset(rest);
        assert g == f || g in s[1..];
      }
    }
  }

  lemma {:induction false} SortedAscends(s: seq<FieldDesc>)
    requires DistinctNumbers(s)
    ensures Ascending(Sorted(s))
  {
    if s != [] {
      SortedAscends(s[1..]);
      forall g | g in Sorted(s[1..])
        ensures g.number != s[0].number
      {
        assert g in multiset(Sorted(s[1..]));
        assert g in s[1..];
      }
      InsertedAscends(s[0], Sorted(s[1..]));
    }
  }

  /** Ascending sequences of the same fields begin with the same field. */
  lemma SameHead(a: seq<FieldDesc>, b: seq<FieldDesc>)
    requires Ascending(a) && Ascending(b) && multiset(a) == multiset(b) && a != []
    ensures b != [] && a[0] == b[0]
  {
    assert a[0] in multiset(b);
    var i :| 0 <= i < |b| && b[i] == a[0];
    assert b[0] in multiset(a);
    var j :| 0 <= j < |a| && a[j] == b[0];
  }

  lemma TailMultiset(a: seq<FieldDesc>)
    requires a != []
    ensures multiset(a[1..]) == multiset(a) - multiset{a[0]}
  {
    assert a == [a[0]] + a[1..];
  }

  lemma {:induction false} AscendingIsUnique(a: seq<FieldDesc>, b: seq<FieldDesc>)
    requires Ascending(a) && Ascending(b) && multiset(a) == multiset(b)
    ensures a == b
  {
    if a == [] {
      assert |multiset(b)| == 0;
    } else {
      SameHead(a, b);
      TailMultiset(a);
      TailMultiset(b);
      AscendingIsUnique(a[1..], b[1..]);
      assert a == [a[0]] + a[1..] && b == [b[0]] + b[1..];
    }
  }

  // ----- placing

  function MaxSize(align: nat, t: GoType): nat {
    if SizeOf(t) > align then SizeOf(t) else align
  }

  /** Fields in order from offset `off`, `align` being the largest size so far. */
  function Place(fs: seq<FieldDesc>, off: nat, align: nat): Result<Layout> {
    if fs == [] then Packable(Layout([], AlignUp(off, align)))
    else
      var t :- ScalarType(fs[0]);
      var at := AlignUp(off, SizeOf(t));
      var rest :- Place(fs[1..], at + SizeOf(t), MaxSize(align, t));
      Packable(Layout([Field(fs[0].number, at, t)] + rest.fields, rest.size))
  }

  function Computed(m: seq<FieldDesc>): Result<Layout> {
    Place(Sorted(m), 0, 1)
  }

  ghost function Prefixed(fields: seq<Field>, r: Result<Layout>): Result<Layout> {
    if r.Packable? then Packable(Layout(fields + r.value.fields, r.value.size)) else r
  }

  lemma PrefixedMore(out: seq<Field>, f: Field, rest: Result<Layout>)
    ensures Prefixed(out + [f], rest) == Prefixed(out, Prefixed([f], rest))
  {
    if rest.Packable? {
      assert out + ([f] + rest.value.fields) == (out + [f]) + rest.value.fields;
    }
  }

  /** `Compute`: sort by number, then one pass with a running offset and alignment. */
  method Compute(m: seq<FieldDesc>) returns (r: Result<Layout>)
    ensures r == Computed(m)
  {
    hide AlignUp, ScalarType, Sorted, SizeOf;
    var fields := Sorted(m);
    var out: seq<Field> := [];
    var off, align := 0, 1;
    assert fields[0..] == fields;
    if Computed(m).Packable? {
      assert [] + Computed(m).value.fields == Computed(m).value.fields;
    }
    for i := 0 to |fields|
      invariant Prefixed(out, Place(fields[i..], off, align)) == Computed(m)
    {
      var t := ScalarType(fields[i]);
      assert fields[i..][1..] == fields[i + 1..];
      if t.NotPackable? {
        return NotPackable(t.number, t.reason);
      }
      var size := SizeOf(t.value);
      off := AlignUp(off, size);
      PrefixedMore(out, Field(fields[i].number, off, t.value),
        Place(fields[i + 1..], off + size, MaxSize(align, t.value)));
      out := out + [Field(fields[i].number, off, t.value)];
      off := off + size;
      if size > align {
        align := size;
      }
    }
    assert fields[|fields|..] == [] && out + [] == out;
    return Packable(Layout(out, AlignUp(off, align)));
  }

  // ----- what the layout is

  /** The layout depends on the set of fields only, not on the order they are declared in. */
  lemma LayoutIsCanonical(a: seq<FieldDesc>, b: seq<FieldDesc>)
    requires DistinctNumbers(a) && multiset(a) == multiset(b) && DistinctNumbers(b)
    ensures Computed(a) == Computed(b)
  {
    SortedAscends(a);
    SortedAscends(b);
    AscendingIsUnique(Sorted(a), Sorted(b));
  }

  /** Naturally aligned, in the given order and not overlapping, starting at `off` or later. */
  ghost predicate Natural(fields: seq<Field>, off: nat)
    decreases |fields|
  {
    fields == [] ||
    (var f := fields[0];
     off <= f.offset && Multiple(f.offset, SizeOf(f.goType)) && Natural(fields[1..], f.offset + SizeOf(f.goType)))
  }

  ghost function End(fields: seq<Field>, off: nat): nat {
    if fields == [] then off
    else fields[|fields| - 1].offset + SizeOf(fields[|fields| - 1].goType)
  }

  /** A whole layout: natural fields and a size that ends them and is a multiple of every alignment. */
  ghost predicate NaturalLayout(l: Layout, off: nat, align: nat) {
    && Natural(l.fields, off)
    && End(l.fields, off) <= l.size
    && Multiple(l.size, align)
    && forall f :: f in l.fields ==> Multiple(l.size, SizeOf(f.goType))
  }

  ghost predicate SameFields(a: seq<Field>, b: seq<Field>) {
    |a| == |b| && forall i :: 0 <= i < |a| ==> a[i].number == b[i].number && a[i].goType == b[i].goType
  }

  /** `a` is nowhere behind `b` and no larger. */
  ghost predicate NoLarger(a: Layout, b: Layout) {
    && |a.fields| == |b.fields|
    && (forall i :: 0 <= i < |a.fields| ==> a.fields[i].offset <= b.fields[i].offset)
    && a.size <= b.size
  }

  /** The larger of two sizes is a multiple of both. */
  lemma MaxSizeCovers(align: nat, t: GoType, n: nat)
    requires IsSize(align)
    ensures IsSize(MaxSize(align, t))
    ensures Multiple(n, MaxSize(align, t)) <==> Multiple(n, align) && Multiple(n, SizeOf(t))
  {
    SizesNest(n, align);
    SizesNest(n, SizeOf(t));
    hide Multiple;
  }

  lemma SizesNest(n: nat, a: nat)
    requires IsSize(a)
    ensures Multiple(n, 1)
    ensures Multiple(n, 8) ==> Multiple(n, 4)
  {
  }

  lemma {:induction false} PlaceIsNatural(fs: seq<FieldDesc>, off: nat, align: nat)
    requires IsSize(align) && Place(fs, off, align).Packable?
    ensures NaturalLayout(Place(fs, off, align).value, off, align)
  {
    hide AlignUp, Multiple, ScalarType, MaxSize;
    if fs == [] {
      AlignUpIsLeast(off, align, 0);
    } else {
      var t := ScalarType(fs[0]).value;
      AlignUpIsLeast(off, SizeOf(t), 0);
      var at := AlignUp(off, SizeOf(t));
      var rest := Place(fs[1..], at + SizeOf(t), MaxSize(align, t)).value;
      MaxSizeCovers(align, t, rest.size);
      PlaceIsNatural(fs[1..], at + SizeOf(t), MaxSize(align, t));
      var l := Place(fs, off, align).value;
      assert l.fields[1..] == rest.fields && l.fields == [Field(fs[0].number, at, t)] + rest.fields;
    }
  }

  lemma TailIsNatural(l: Layout, off: nat, align: nat)
    requires IsSize(align) && l.fields != [] && NaturalLayout(l, off, align)
    ensures
      var f := l.fields[0];
      NaturalLayout(Layout(l.fields[1..], l.size), f.offset + SizeOf(f.goType), MaxSize(align, f.goType))
  {
    hide Multiple, MaxSize;
    assert l.fields[0] in l.fields;
    MaxSizeCovers(align, l.fields[0].goType, l.size);
  }

  lemma {:induction false} PlaceIsLeast(fs: seq<FieldDesc>, off: nat, align: nat, other: Layout, from: nat)
    requires IsSize(align) && Place(fs, off, align).Packable? && off <= from
    requires SameFields(Place(fs, off, align).value.fields, other.fields) && NaturalLayout(other, from, align)
    ensures NoLarger(Place(fs, off, align).value, other)
  {
    hide AlignUp, Multiple, ScalarType, MaxSize;
    if fs == [] {
      AlignUpIsLeast(off, align, other.size);
    } else {
      var t := ScalarType(fs[0]).value;
      AlignUpIsLeast(off, SizeOf(t), other.fields[0].offset);
      MaxSizeCovers(align, t, 0);
      TailIsNatural(other, from, align);
      var at := AlignUp(off, SizeOf(t));
      var rest := Place(fs[1..], at + SizeOf(t), MaxSize(align, t)).value;
      var l := Place(fs, off, align).value;
      assert l.fields[1..] == rest.fields && l.fields == [Field(fs[0].number, at, t)] + rest.fields;
      PlaceIsLeast(fs[1..], at + SizeOf(t), MaxSize(align, t), Layout(other.fields[1..], other.size),
        other.fields[0].offset + SizeOf(t));
    }
  }

  lemma {:induction false} PlaceKeepsOrder(fs: seq<FieldDesc>, off: nat, align: nat)
    requires Place(fs, off, align).Packable?
    ensures
      var l := Place(fs, off, align).value;
      |l.fields| == |fs| &&
      forall i :: 0 <= i < |fs| ==>
        l.fields[i].number == fs[i].number && ScalarType(fs[i]) == Packable(l.fields[i].goType)
  {
    if fs != [] {
      var t := ScalarType(fs[0]).value;
      var at := AlignUp(off, SizeOf(t));
      PlaceKeepsOrder(fs[1..], at + SizeOf(t), MaxSize(align, t));
    }
  }

  /** The computed layout holds every field in ascending number order, is naturally aligned and disjoint, and
      is pointwise the smallest such layout, padding included. */
  lemma LayoutIsMinimal(m: seq<FieldDesc>, other: Layout)
    requires DistinctNumbers(m) && Computed(m).Packable?
    ensures
      var l := Computed(m).value;
      && |l.fields| == |m|
      && (forall i :: 0 <= i < |m| ==> l.fields[i].number == Sorted(m)[i].number)
      && (forall i, j :: 0 <= i < j < |m| ==> l.fields[i].number < l.fields[j].number)
      && NaturalLayout(l, 0, 1)
      && (SameFields(l.fields, other.fields) && NaturalLayout(other, 0, 1) ==> NoLarger(l, other))
  {
    SortedAscends(m);
    PlaceKeepsOrder(Sorted(m), 0, 1);
    assert |multiset(Sorted(m))| == |multiset(m)|;
    PlaceIsNatural(Sorted(m), 0, 1);
    if SameFields(Computed(m).value.fields, other.fields) && NaturalLayout(other, 0, 1) {
      PlaceIsLeast(Sorted(m), 0, 1, other, 0);
    }
  }

  lemma {:induction false} PlacePacksIff(fs: seq<FieldDesc>, off: nat, align: nat)
    ensures Place(fs, off, align).Packable? <==> forall f :: f in fs ==> ScalarType(f).Packable?
  {
    if fs != [] {
      assert fs == [fs[0]] + fs[1..];
      if ScalarType(fs[0]).Packable? {
        var t := ScalarType(fs[0]).value;
        PlacePacksIff(fs[1..], AlignUp(off, SizeOf(t)) + SizeOf(t), MaxSize(align, t));
      }
    }
  }

  /** A message packs exactly when each of its fields is a plain fixed-size scalar. */
  lemma EligibleIff(m: seq<FieldDesc>)
    ensures Computed(m).Packable? <==> forall f :: f in m ==> ScalarType(f).Packable?
  {
    PlacePacksIff(Sorted(m), 0, 1);
    assert forall f :: f in m <==> f in multiset(Sorted(m));
  }

  // ----- which fields pack, and as what

  /** A singular scalar without presence, of one of the thirteen fixed-size kinds. */
  ghost predicate Plain(d: FieldDesc) {
    && !d.isMap && !d.isList && !d.inOneof && !d.hasPresence
    && d.kind in {BoolKind, Int32Kind, Sint32Kind, Sfixed32Kind, Uint32Kind, Fixed32Kind, Int64Kind, Sint64Kind,
                  Sfixed64Kind, Uint64Kind, Fixed64Kind, FloatKind, DoubleKind}
  }

  lemma PlainPacks(d: FieldDesc)
    ensures ScalarType(d).Packable? <==> Plain(d)
  {
  }

  /** A message packs exactly when all its fields are plain. */
  lemma PacksIff(m: seq<FieldDesc>)
    ensures Computed(m).Packable? <==> forall d :: d in m ==> Plain(d)
  {
    hide ScalarType, Plain, Computed;
    EligibleIff(m);
    forall d | d in m
      ensures ScalarType(d).Packable? <==> Plain(d)
    {
      PlainPacks(d);
    }
  }

  /** The Go type `t` has and its size for a field of kind `k`. */
  ghost predicate TypeFor(k: Kind, t: GoType) {
    match k
    case BoolKind => t == GoBool && SizeOf(t) == 1
    case Int32Kind => t == GoInt32 && SizeOf(t) == 4
    case Sint32Kind => t == GoInt32 && SizeOf(t) == 4
    case Sfixed32Kind => t == GoInt32 && SizeOf(t) == 4
    case Uint32Kind => t == GoUint32 && SizeOf(t) == 4
    case Fixed32Kind => t == GoUint32 && SizeOf(t) == 4
    case Int64Kind => t == GoInt64 && SizeOf(t) == 8
    case Sint64Kind => t == GoInt64 && SizeOf(t) == 8
    case Sfixed64Kind => t == GoInt64 && SizeOf(t) == 8
    case Uint64Kind => t == GoUint64 && SizeOf(t) == 8
    case Fixed64Kind => t == GoUint64 && SizeOf(t) == 8
    case FloatKind => t == GoFloat32 && SizeOf(t) == 4
    case DoubleKind => t == GoFloat64 && SizeOf(t) == 8
    case OtherKind => false
  }

  lemma ScalarTypeFits(d: FieldDesc)
    requires ScalarType(d).Packable?
    ensures TypeFor(d.kind, ScalarType(d).value)
  {
  }

  /** The layout has one field per declared field, with its number and the type and size of its kind. */
  lemma FieldTypes(m: seq<FieldDesc>)
    requires DistinctNumbers(m) && Computed(m).Packable?
    ensures forall d :: d in m ==>
              exists f :: f in Computed(m).value.fields && f.number == d.number && TypeFor(d.kind, f.goType)
    ensures forall f :: f in Computed(m).value.fields ==>
              exists d :: d in m && f.number == d.number && TypeFor(d.kind, f.goType)
  {
    var sorted, fields := Sorted(m), Computed(m).value.fields;
    PlaceKeepsOrder(sorted, 0, 1);
    hide Place, ScalarType, TypeFor;
    forall i | 0 <= i < |sorted|
      ensures fields[i].number == sorted[i].number && TypeFor(sorted[i].kind, fields[i].goType)
    {
      ScalarTypeFits(sorted[i]);
    }
    forall d | d in m
      ensures exists f :: f in fields && f.number == d.number && TypeFor(d.kind, f.goType)
    {
      assert d in multiset(sorted);
      var i :| 0 <= i < |sorted| && sorted[i] == d;
      assert fields[i] in fields;
    }
    forall f | f in fields
      ensures exists d :: d in m && f.number == d.number && TypeFor(d.kind, f.goType)
    {
      var i :| 0 <= i < |fields| && fields[i] == f;
      assert sorted[i] in multiset(sorted);
      assert sorted[i] in m;
    }
  }

  /** Why a field that is not plain is refused: the tests in their order. */
  ghost predicate RefusedFor(d: FieldDesc, reason: Reason) {
    match reason
    case MapField => d.isMap
    case RepeatedField => !d.isMap && d.isList
    case OneofField => !d.isMap && !d.isList && d.inOneof
    case PresenceField => !d.isMap && !d.isList && !d.inOneof && d.hasPresence
    case UnsupportedKind => !d.isMap && !d.isList && !d.inOneof && !d.hasPresence && d.kind.OtherKind?
  }

  lemma RefusalFits(d: FieldDesc)
    requires ScalarType(d).NotPackable?
    ensures ScalarType(d).number == d.number && RefusedFor(d, ScalarType(d).reason)
  {
  }

  lemma {:induction false} FirstRefused(fs: seq<FieldDesc>, off: nat, align: nat) returns (i: nat)
    requires Place(fs, off, align).NotPackable?
    ensures i < |fs| && Place(fs, off, align).number == fs[i].number && RefusedFor(fs[i], Place(fs, off, align).reason)
    ensures !Plain(fs[i]) && forall k :: 0 <= k < i ==> Plain(fs[k])
  {
    hide RefusedFor, Plain, ScalarType, AlignUp, SizeOf;
    PlainPacks(fs[0]);
    if ScalarType(fs[0]).NotPackable? {
      RefusalFits(fs[0]);
      i := 0;
    } else {
      var t := ScalarType(fs[0]).value;
      i := FirstRefused(fs[1..], AlignUp(off, SizeOf(t)) + SizeOf(t), MaxSize(align, t));
      i := i + 1;
    }
  }

  /** A refusal names the field with the lowest number that is not plain, and its reason. */
  lemma RefusalIsFirst(m: seq<FieldDesc>) returns (d: FieldDesc)
    requires DistinctNumbers(m) && Computed(m).NotPackable?
    ensures d in m && !Plain(d) && Computed(m).number == d.number && RefusedFor(d, Computed(m).reason)
    ensures forall e :: e in m && !Plain(e) ==> d.number <= e.number
  {
    hide RefusedFor, Plain;
    var sorted := Sorted(m);
    var i := FirstRefused(sorted, 0, 1);
    SortedAscends(m);
    d := sorted[i];
    assert d in multiset(sorted);
    forall e | e in m && !Plain(e)
      ensures d.number <= e.number
    {
      assert e in multiset(sorted);
      var k :| 0 <= k < |sorted| && sorted[k] == e;
    }
  }
}
