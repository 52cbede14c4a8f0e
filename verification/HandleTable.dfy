/** The reference-counted value table of cmd/godash/assets/tinygo_wasm_exec.js. */
module HandleTable {

  /** `Thing` is anything boxed by reference: objects, strings, symbols, functions. */
  datatype JsValue = NaN | Zero | Number(n: int) | Undefined | Null | True | False | Thing(identity: nat)

  /** A reference on the Go side: undefined, a plain float, or an index into the table. */
  datatype Ref = NoValue | Float(n: int) | Id(id: nat)

  const GLOBAL := Thing(0)
  const GO_OBJECT := Thing(1)

  /** What `run` puts into the table. */
  const PRESET := [NaN, Zero, Null, True, False, GLOBAL, GO_OBJECT]

  datatype Table = Table(values: seq<JsValue>, counts: map<nat, int>, ids: map<JsValue, nat>, pool: seq<nat>)

  const FRESH := Table(PRESET, map[], map[], [])

  /** The id for a new value: a freed one if there is any, else the end of the table. */
  function NextId(t: Table): nat {
    if t.pool != [] then t.pool[|t.pool| - 1] else |t.values|
  }

  function Entered(t: Table, v: JsValue): Table
    requires t.pool != [] ==> t.pool[|t.pool| - 1] < |t.values|
  {
    var id := NextId(t);
    Table(if id < |t.values| then t.values[id := v] else t.values + [v],
          t.counts[id := 0], t.ids[v := id],
          if t.pool != [] then t.pool[..|t.pool| - 1] else t.pool)
  }

  /** `boxValue`. */
  function Boxed(t: Table, v: JsValue): (Table, Ref)
    requires Sound(t)
  {
    match v
    case NaN => (t, Id(0))
    case Zero => (t, Id(1))
    case Number(n) => (t, Float(n))
    case Undefined => (t, NoValue)
    case Null => (t, Id(2))
    case True => (t, Id(3))
    case False => (t, Id(4))
    case Thing(_) =>
      var t' := if v in t.ids then t else Entered(t, v);
      var id := t'.ids[v];
      (t'.(counts := t'.counts[id := t'.counts[id] + 1]), Id(id))
  }

  /** `unboxValue`. */
  function Unboxed(t: Table, r: Ref): JsValue
    requires r.Id? ==> r.id < |t.values|
  {
    match r
    case NoValue => Undefined
    case Float(n) => Number(n)
    case Id(id) => t.values[id]
  }

  /** `finalizeRef`; an id without a count is only reported. */
  function Finalized(t: Table, id: nat): Table
    requires Sound(t)
  {
    if id !in t.counts then t
    else
      var n := t.counts[id] - 1;
      var t' := t.(counts := t.counts[id := n]);
      if n != 0 then t'
      else t'.(values := t.values[id := Null], ids := t.ids - {t.values[id]}, pool := t.pool + [id])
  }

  /** Enough for the operations to be defined. */
  predicate Sound(t: Table) {
    && (forall id :: id in t.counts ==> id < |t.values|)
    && (forall v :: v in t.ids ==> t.ids[v] in t.counts)
    && (forall i :: 0 <= i < |t.pool| ==> t.pool[i] < |t.values|)
  }

  class Go {
    var values: seq<JsValue>
    var goRefCounts: map<nat, int>
    var ids: map<JsValue, nat>
    var idPool: seq<nat>

    ghost function View(): Table
      reads this
    {
      Table(values, goRefCounts, ids, idPool)
    }

    constructor ()
      ensures View() == FRESH
    {
      values := [NaN, Zero, Null, True, False, GLOBAL, GO_OBJECT];
      goRefCounts, ids, idPool := map[], map[], [];
    }

    method BoxValue(v: JsValue) returns (r: Ref)
      requires Sound(View())
      modifies this
      ensures (View(), r) == Boxed(old(View()), v)
      ensures v.Thing? && v in old(ids) ==> r == Id(old(ids)[v]) && values == old(values) && idPool == old(idPool)
      ensures v.Thing? && v !in old(ids) ==>
        if old(idPool) == [] then r == Id(|old(values)|)
        else r == Id(old(idPool)[|old(idPool)| - 1]) && idPool == old(idPool)[..|old(idPool)| - 1]
      ensures !v.Thing? ==> View() == old(View())
    {
      match v
      case NaN => return Id(0);
      case Zero => return Id(1);
      case Number(n) => return Float(n);
      case Undefined => return NoValue;
      case Null => return Id(2);
      case True => return Id(3);
      case False => return Id(4);
      case Thing(_) =>
        if v !in ids {
          var id;
          if idPool != [] {
            id := idPool[|idPool| - 1];
            idPool := idPool[..|idPool| - 1];
            values := values[id := v];
          } else {
            id := |values|;
            values := values + [v];
          }
          goRefCounts := goRefCounts[id := 0];
          ids := ids[v := id];
        }
        var id := ids[v];
        goRefCounts := goRefCounts[id := goRefCounts[id] + 1];
        return Id(id);
    }

    method FinalizeRef(id: nat)
      requires Sound(View())
      modifies this
      ensures View() == Finalized(old(View()), id)
      ensures id !in old(goRefCounts) ==> View() == old(View())
      ensures id in old(goRefCounts) ==> goRefCounts == old(goRefCounts)[id := old(goRefCounts)[id] - 1]
      ensures id in old(goRefCounts) && old(goRefCounts)[id] != 1 ==>
        values == old(values) && ids == old(ids) && idPool == old(idPool)
      ensures id in old(goRefCounts) && old(goRefCounts)[id] == 1 ==>
        values == old(values)[id := Null] && ids == old(ids) - {old(values)[id]} && idPool == old(idPool) + [id]
    {
      if id in goRefCounts {
        goRefCounts := goRefCounts[id := goRefCounts[id] - 1];
        if goRefCounts[id] == 0 {
          var v := values[id];
          values := values[id := Null];
          ids := ids - {v};
          idPool := idPool + [id];
        }
      }
    }
  }

  // ----- runs in which only held references are finalized

  /** One outstanding reference: an id and the value it was made for. */
  datatype Held = Held(id: nat, value: JsValue)

  datatype State = State(table: Table, held: multiset<Held>)

  datatype Event = Box(v: JsValue) | Finalize(h: Held)

  ghost predicate CanFire(s: State, e: Event) {
    Sound(s.table) && (e.Finalize? ==> e.h in s.held)
  }

  ghost function Fire(s: State, e: Event): State
    requires CanFire(s, e)
  {
    match e
    case Box(v) =>
      var (t, r) := Boxed(s.table, v);
      State(t, if v.Thing? then s.held + multiset{Held(r.id, v)} else s.held)
    case Finalize(h) => State(Finalized(s.table, h.id), s.held - multiset{h})
  }

  ghost predicate Legal(events: seq<Event>)
    decreases |events|, 0
  {
    events == [] || (Legal(events[..|events| - 1]) && CanFire(Run(events[..|events| - 1]), events[|events| - 1]))
  }

  ghost function Run(events: seq<Event>): State
    requires Legal(events)
    decreases |events|, 1
  {
    if events == [] then State(FRESH, multiset{})
    else Fire(Run(events[..|events| - 1]), events[|events| - 1])
  }

  ghost predicate Live(t: Table, id: nat) {
    id in t.counts && t.counts[id] > 0
  }

  const FIRST_ID := 7

  /** Every id from `FIRST_ID` to the end of the table has a count; the presets stay put. */
  ghost predicate CountInv(t: Table) {
    && |t.values| >= FIRST_ID && t.values[..FIRST_ID] == PRESET
    && (forall id: nat :: id in t.counts <==> FIRST_ID <= id < |t.values|)
    && (forall id: nat :: id in t.counts ==> t.counts[id] >= 0)
  }

  /** The free list: the ids with count zero, each once, their slots emptied. */
  ghost predicate PoolInv(t: Table) {
    && (forall i, j :: 0 <= i < j < |t.pool| ==> t.pool[i] != t.pool[j])
    && (forall id: nat :: id in t.pool <==> id in t.counts && t.counts[id] == 0)
    && (forall id: nat :: id in t.pool && id < |t.values| ==> t.values[id] == Null)
  }

  /** The id map inverts the value table on live ids. */
  ghost predicate IdInv(t: Table)
    requires CountInv(t)
  {
    && (forall v :: v in t.ids ==> Live(t, t.ids[v]) && t.values[t.ids[v]] == v && v.Thing?)
    && (forall id: nat :: Live(t, id) ==> t.values[id] in t.ids && t.ids[t.values[id]] == id)
  }

  ghost predicate TableInv(t: Table) {
    CountInv(t) && PoolInv(t) && IdInv(t)
  }

  lemma InvIsSound(t: Table)
    requires TableInv(t)
    ensures Sound(t)
  {
    forall i | 0 <= i < |t.pool|
      ensures t.pool[i] < |t.values|
    {
      assert t.pool[i] in t.pool;
    }
  }

  ghost predicate HeldInv(s: State)
    requires CountInv(s.table)
  {
    && (forall h :: h in s.held ==> Live(s.table, h.id) && s.table.values[h.id] == h.value)
    && (forall id: nat :: Live(s.table, id) ==> s.held[Held(id, s.table.values[id])] == s.table.counts[id])
  }

  ghost predicate Inv(s: State) {
    TableInv(s.table) && HeldInv(s)
  }

  lemma NextIdIsFree(t: Table)
    requires TableInv(t)
    ensures FIRST_ID <= NextId(t) <= |t.values| && !Live(t, NextId(t))
    ensures t.pool != [] ==> NextId(t) < |t.values| && t.pool == t.pool[..|t.pool| - 1] + [NextId(t)]
    ensures t.pool == [] ==> NextId(t) == |t.values|
  {
    if t.pool != [] {
      assert t.pool[|t.pool| - 1] in t.pool;
    }
  }

  /** A new object in the table with its first reference. */
  ghost function EnteredOnce(t: Table, v: JsValue): Table
    requires TableInv(t)
  {
    NextIdIsFree(t);
    var t' := Entered(t, v);
    t'.(counts := t'.counts[NextId(t) := 1])
  }

  lemma EnteredCounts(t: Table, v: JsValue)
    requires TableInv(t)
    ensures CountInv(EnteredOnce(t, v))
    ensures forall k: nat :: Live(t, k) ==>
      Live(EnteredOnce(t, v), k) && EnteredOnce(t, v).values[k] == t.values[k]
      && EnteredOnce(t, v).counts[k] == t.counts[k]
    ensures forall k: nat :: Live(EnteredOnce(t, v), k) ==> Live(t, k) || k == NextId(t)
    ensures EnteredOnce(t, v).values[NextId(t)] == v && EnteredOnce(t, v).counts[NextId(t)] == 1
  {
    hide PoolInv, IdInv, NextId;
    NextIdIsFree(t);
    assert EnteredOnce(t, v).values[..FIRST_ID] == t.values[..FIRST_ID];
  }

  lemma EnteredPool(t: Table, v: JsValue)
    requires TableInv(t)
    ensures PoolInv(EnteredOnce(t, v))
  {
    hide IdInv;
    NextIdIsFree(t);
    var id, pool := NextId(t), EnteredOnce(t, v).pool;
    forall k: nat
      ensures k in pool <==> k in t.pool && k != id
    {
    }
  }

  lemma EnteredIds(t: Table, v: JsValue)
    requires TableInv(t) && v.Thing? && v !in t.ids
    ensures CountInv(EnteredOnce(t, v)) && IdInv(EnteredOnce(t, v))
  {
    hide PoolInv, NextId;
    NextIdIsFree(t);
    EnteredCounts(t, v);
  }

  lemma BoxNewKeepsInv(s: State, v: JsValue)
    requires Inv(s) && v.Thing? && v !in s.table.ids
    ensures Sound(s.table) && Inv(Fire(s, Box(v)))
  {
    hide PoolInv, IdInv, NextId;
    InvIsSound(s.table);
    NextIdIsFree(s.table);
    EnteredCounts(s.table, v);
    EnteredPool(s.table, v);
    EnteredIds(s.table, v);
    var s' := Fire(s, Box(v));
    var id := NextId(s.table);
    assert s'.table == EnteredOnce(s.table, v);
    assert s'.held == s.held + multiset{Held(id, v)};
    assert Held(id, v) !in s.held;
  }

  lemma BoxAgainKeepsInv(s: State, v: JsValue)
    requires Inv(s) && v in s.table.ids
    ensures Sound(s.table) && Inv(Fire(s, Box(v)))
  {
    InvIsSound(s.table);
    var s' := Fire(s, Box(v));
    assert s'.table.values == s.table.values && s'.table.ids == s.table.ids && s'.table.pool == s.table.pool;
    assert forall k: nat :: Live(s'.table, k) <==> Live(s.table, k);
  }

  lemma BoxKeepsInv(s: State, v: JsValue)
    requires Inv(s)
    ensures Sound(s.table) && Inv(Fire(s, Box(v)))
  {
    hide TableInv, HeldInv;
    if v in s.table.ids {
      BoxAgainKeepsInv(s, v);
    } else if v.Thing? {
      BoxNewKeepsInv(s, v);
    } else {
      InvIsSound(s.table);
    }
  }

  /** Dropping one of several references only lowers the count. */
  lemma DropKeepsInv(s: State, h: Held)
    requires Inv(s) && h in s.held && s.table.counts[h.id] > 1
    ensures Sound(s.table) && Inv(Fire(s, Finalize(h)))
  {
    InvIsSound(s.table);
    var s' := Fire(s, Finalize(h));
    assert s'.table == s.table.(counts := s.table.counts[h.id := s.table.counts[h.id] - 1]);
    assert forall k: nat :: Live(s'.table, k) <==> Live(s.table, k);
  }

  lemma FreeKeepsTable(t: Table, id: nat)
    requires TableInv(t) && id in t.counts && t.counts[id] == 1
    ensures Sound(t) && TableInv(Finalized(t, id))
    ensures forall k: nat :: Live(Finalized(t, id), k) <==> Live(t, k) && k != id
  {
    InvIsSound(t);
    var t' := Finalized(t, id);
    assert forall k: nat :: Live(t', k) <==> Live(t, k) && k != id;
    assert id !in t.pool;
    assert forall k: nat :: k in t'.pool <==> k in t.pool || k == id;
    assert CountInv(t') && PoolInv(t');
  }

  /** Dropping the last reference frees the id. */
  lemma FreeKeepsInv(s: State, h: Held)
    requires Inv(s) && h in s.held && s.table.counts[h.id] == 1
    ensures Sound(s.table) && Inv(Fire(s, Finalize(h)))
  {
    hide PoolInv, IdInv;
    FreeKeepsTable(s.table, h.id);
    var s' := Fire(s, Finalize(h));
    assert s.held[h] == 1;
    forall k | k in s'.held
      ensures Live(s'.table, k.id) && s'.table.values[k.id] == k.value
    {
      assert k in s.held && k != h;
      assert k.id == h.id ==> k.value == h.value;
    }
  }

  lemma FinalizeKeepsInv(s: State, h: Held)
    requires Inv(s) && h in s.held
    ensures Sound(s.table) && Inv(Fire(s, Finalize(h)))
  {
    if s.table.counts[h.id] > 1 {
      DropKeepsInv(s, h);
    } else {
      FreeKeepsInv(s, h);
    }
  }

  lemma {:induction false} InvAfter(events: seq<Event>)
    requires Legal(events)
    ensures Inv(Run(events))
  {
    if events != [] {
      InvAfter(events[..|events| - 1]);
      match events[|events| - 1]
      case Box(v) => BoxKeepsInv(Run(events[..|events| - 1]), v);
      case Finalize(h) => FinalizeKeepsInv(Run(events[..|events| - 1]), h);
    }
  }

  /** A reference that is held unboxes to the value it was boxed from, and the count of its id is the number
      of references held to it. */
  lemma HeldReferencesUnbox(events: seq<Event>, h: Held)
    requires Legal(events) && h in Run(events).held
    ensures
      var t := Run(events).table;
      && h.id < |t.values| && Unboxed(t, Id(h.id)) == h.value
      && h.id in t.counts && t.counts[h.id] == Run(events).held[h]
      && h.value in t.ids && t.ids[h.value] == h.id
  {
    InvAfter(events);
  }

  lemma ThingUnboxes(s: State, v: JsValue)
    requires Inv(s) && Sound(s.table) && v.Thing?
    ensures
      var (t, r) := Boxed(s.table, v);
      r.Id? && r.id < |t.values| && t.values[r.id] == v
  {
    hide PoolInv, IdInv, NextId, Boxed;
    BoxKeepsInv(s, v);
    var (t, r) := Boxed(s.table, v);
    BoxMakesId(s.table, v);
    assert Held(r.id, v) in Fire(s, Box(v)).held;
  }

  lemma BoxMakesId(t: Table, v: JsValue)
    requires Sound(t) && v.Thing?
    ensures Boxed(t, v).1.Id?
  {
  }

  lemma PresetUnboxes(t: Table, v: JsValue)
    requires CountInv(t) && Sound(t) && !v.Thing?
    ensures Boxed(t, v).0 == t && (Boxed(t, v).1.Id? ==> Boxed(t, v).1.id < |t.values|)
    ensures Unboxed(t, Boxed(t, v).1) == v
  {
    var r := Boxed(t, v).1;
    if r.Id? {
      assert t.values[..FIRST_ID][r.id] == PRESET[r.id] == v;
    }
  }

  lemma HeldIdIsReused(s: State, h: Held)
    requires Inv(s) && Sound(s.table) && h in s.held
    ensures h.value.Thing? && Boxed(s.table, h.value).1 == Id(h.id)
  {
    hide PoolInv;
    assert Live(s.table, h.id);
  }

  lemma InvBoxUnboxes(s: State, v: JsValue)
    requires Inv(s) && Sound(s.table)
    ensures
      var (t, r) := Boxed(s.table, v);
      && (r.Id? ==> r.id < |t.values|) && Unboxed(t, r) == v
      && forall h :: h in s.held && h.value == v ==> r == Id(h.id)
  {
    hide Boxed, CountInv, PoolInv, IdInv, HeldInv;
    if v.Thing? {
      ThingUnboxes(s, v);
    } else {
      PresetUnboxes(s.table, v);
    }
    forall h | h in s.held && h.value == v
      ensures Boxed(s.table, v).1 == Id(h.id)
    {
      HeldIdIsReused(s, h);
    }
  }

  /** Boxing anything and unboxing the result gives it back, presets and inline values included; an object
      that is still held gets the id it has. */
  lemma BoxThenUnbox(events: seq<Event>, v: JsValue)
    requires Legal(events)
    ensures Sound(Run(events).table)
    ensures
      var (t, r) := Boxed(Run(events).table, v);
      && (r.Id? ==> r.id < |t.values|) && Unboxed(t, r) == v
      && forall h :: h in Run(events).held && h.value == v ==> r == Id(h.id)
  {
    InvAfter(events);
    InvIsSound(Run(events).table);
    InvBoxUnboxes(Run(events), v);
  }

  /** The free list holds each allocated id without references exactly once, its slot holds null, and no id is
      ever lost. */
  lemma FreeListIsExact(events: seq<Event>)
    requires Legal(events)
    ensures
      var t := Run(events).table;
      && (forall id: nat :: id in t.pool <==>
            FIRST_ID <= id < |t.values| && forall h :: h in Run(events).held ==> h.id != id)
      && (forall i, j :: 0 <= i < j < |t.pool| ==> t.pool[i] != t.pool[j])
      && (forall id: nat :: id in t.pool ==> t.values[id] == Null)
      && PRESET <= t.values
  {
    InvAfter(events);
    var s := Run(events);
    forall id: nat | Live(s.table, id)
      ensures exists h :: h in s.held && h.id == id
    {
      assert Held(id, s.table.values[id]) in s.held;
    }
  }
}
