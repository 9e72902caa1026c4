/** The stateful half of the reference machinery in SimulatorHandler.php:
    `addReference` and `deleteReference` as transformations of the stores,
    including the inverse write on the other record, and the null / single /
    list shape `getReference` answers with. */
module Linking {
  import opened Base
  import opened OrderedSets
  import opened RecordStore
  import opened ReferenceRules

  type Stores = map<StoreKey, Store>

  /** The store a record lives in; `prefixOf` is the project prefix of a
      store code. */
  function KeyOf(prefixOf: string -> string, o: ObjRef): StoreKey {
    StoreKey(o.kind, prefixOf(o.storeCode), o.storeCode)
  }

  /** `records[id]['references'][code]`, if set. */
  function EntryOf(st: Stores, k: StoreKey, id: string, code: string): Option<seq<string>> {
    var s := StoreAt(st, k);
    if (id, code) in s.references then Some(s.references[(id, code)]) else None
  }

  function EntryOrEmpty(st: Stores, k: StoreKey, id: string, code: string): seq<string> {
    var s := StoreAt(st, k);
    if (id, code) in s.references then s.references[(id, code)] else []
  }

  /** `records[id]['references'][code][x] = true`, creating what is missing. */
  function Put(st: Stores, k: StoreKey, id: string, code: string, x: string): Stores {
    var s := StoreAt(st, k);
    st[k := s.(references := s.references[(id, code) := Insert(EntryOrEmpty(st, k, id, code), x)])]
  }

  /** `unset(records[id]['references'][code])`. */
  function Drop(st: Stores, k: StoreKey, id: string, code: string): Stores {
    if k in st then st[k := st[k].(references := st[k].references - {(id, code)})] else st
  }

  /** `unset(records[id]['references'][code][x])`. */
  function Remove(st: Stores, k: StoreKey, id: string, code: string, x: string): Stores {
    if k in st && (id, code) in st[k].references
    then st[k := st[k].(references := st[k].references[(id, code) := Without(st[k].references[(id, code)], x)])]
    else st
  }

  predicate HasEntry(prefixOf: string -> string, st: Stores, o: ObjRef, code: string) {
    EntryOf(st, KeyOf(prefixOf, o), o.id, code).Some?
  }

  /** The nested `addReference` on object `o` with the acting record as its
      only object. Its own inverse guard finds the acting record's entry set
      (the outer call wrote it just before), so it writes no further. */
  function AddInverse(prefixOf: string -> string, defs: map<string, RefDef>, st: Stores,
                      o: ObjRef, acting: ObjRef, code: string): (r: (Stores, Outcome))
    requires HasEntry(prefixOf, st, acting, code)
    ensures HasEntry(prefixOf, r.0, acting, code)
    ensures r.1.Fail? ==> r.0 == st
    ensures r.1.Pass? ==>
      HasEntry(prefixOf, r.0, o, code) && acting.id in EntryOf(r.0, KeyOf(prefixOf, o), o.id, code).value
  {
    var ko := KeyOf(prefixOf, o);
    match Validate(defs, o.kind, o.storeCode, o.id, code, [acting])
    case Fail(e) => (st, Fail(e))
    case Pass =>
      var st1 := if Resets(defs, code, o.kind, o.storeCode) then Drop(st, ko, o.id, code) else st;
      (Put(st1, ko, o.id, code, acting.id), Pass)
  }

  /** The `foreach` of `addReference`: insert each object's id into the acting
      record's entry and, when the object holds no entry for the code, write
      the inverse. A failing inverse validation stops the loop, keeping what
      was written before it. */
  function AddEach(prefixOf: string -> string, defs: map<string, RefDef>, st: Stores,
                   acting: ObjRef, code: string, objects: seq<ObjRef>): (r: (Stores, Outcome))
    decreases |objects|
  {
    if objects == [] then (st, Pass)
    else
      var o := objects[0];
      var st1 := Put(st, KeyOf(prefixOf, acting), acting.id, code, o.id);
      if HasEntry(prefixOf, st1, o, code) then AddEach(prefixOf, defs, st1, acting, code, objects[1..])
      else
        var inv := AddInverse(prefixOf, defs, st1, o, acting, code);
        if inv.1.Fail? then inv else AddEach(prefixOf, defs, inv.0, acting, code, objects[1..])
  }

  /** One step of `AddEach` taken at position `i` of the list. */
  lemma AddEachStep(prefixOf: string -> string, defs: map<string, RefDef>, st: Stores,
                    acting: ObjRef, code: string, objects: seq<ObjRef>, i: nat)
    requires i < |objects|
    ensures var o := objects[i];
      var st1 := Put(st, KeyOf(prefixOf, acting), acting.id, code, o.id);
      var one := if HasEntry(prefixOf, st1, o, code) then (st1, Pass) else AddInverse(prefixOf, defs, st1, o, acting, code);
      AddEach(prefixOf, defs, st, acting, code, objects[i..])
        == if one.1.Fail? then one else AddEach(prefixOf, defs, one.0, acting, code, objects[i + 1..])
  {
    assert objects[i..][0] == objects[i] && objects[i..][1..] == objects[i + 1..];
  }

  /** `addReference`: validate, reset the acting record's entry where the
      cardinality says so, then insert every object. A refused validation
      changes nothing. */
  function AddReference(prefixOf: string -> string, defs: map<string, RefDef>, st: Stores,
                        acting: ObjRef, code: string, objects: seq<ObjRef>): (r: (Stores, Outcome))
    ensures Validate(defs, acting.kind, acting.storeCode, acting.id, code, objects).Fail? ==>
      r == (st, Validate(defs, acting.kind, acting.storeCode, acting.id, code, objects))
  {
    match Validate(defs, acting.kind, acting.storeCode, acting.id, code, objects)
    case Fail(e) => (st, Fail(e))
    case Pass =>
      var st1 := if Resets(defs, code, acting.kind, acting.storeCode)
                 then Drop(st, KeyOf(prefixOf, acting), acting.id, code) else st;
      AddEach(prefixOf, defs, st1, acting, code, objects)
  }

  function IdsOf(objects: seq<ObjRef>): (r: seq<string>)
    ensures |r| == |objects| && forall i :: 0 <= i < |r| ==> r[i] == objects[i].id
  {
    if objects == [] then [] else [objects[0].id] + IdsOf(objects[1..])
  }

  /** While the objects live in other stores than the acting record and their
      inverse validations pass, the loop only inserts into the acting
      record's entry: it ends holding the old ids followed by the new ones. */
  lemma {:induction false} AddEachAccumulates(prefixOf: string -> string, defs: map<string, RefDef>, st: Stores,
                                              acting: ObjRef, code: string, objects: seq<ObjRef>)
    requires forall i :: 0 <= i < |objects| ==> KeyOf(prefixOf, objects[i]) != KeyOf(prefixOf, acting)
    requires forall i :: 0 <= i < |objects| ==>
      Validate(defs, objects[i].kind, objects[i].storeCode, objects[i].id, code, [acting]).Pass?
    ensures AddEach(prefixOf, defs, st, acting, code, objects).1 == Pass
    ensures EntryOrEmpty(AddEach(prefixOf, defs, st, acting, code, objects).0, KeyOf(prefixOf, acting), acting.id, code)
            == InsertAll(EntryOrEmpty(st, KeyOf(prefixOf, acting), acting.id, code), IdsOf(objects))
    decreases |objects|
  {
    if objects != [] {
      var ka := KeyOf(prefixOf, acting);
      var o := objects[0];
      var st1 := Put(st, ka, acting.id, code, o.id);
      assert EntryOrEmpty(st1, ka, acting.id, code) == Insert(EntryOrEmpty(st, ka, acting.id, code), o.id);
      var next := if HasEntry(prefixOf, st1, o, code) then st1 else AddInverse(prefixOf, defs, st1, o, acting, code).0;
      assert EntryOrEmpty(next, ka, acting.id, code) == EntryOrEmpty(st1, ka, acting.id, code);
      AddEachAccumulates(prefixOf, defs, next, acting, code, objects[1..]);
      assert IdsOf(objects)[0] == o.id && IdsOf(objects)[1..] == IdsOf(objects[1..]);
    }
  }

  /** Records on opposite sides of a definition are in different stores. */
  lemma OppositeSidesDifferentStores(prefixOf: string -> string, d: RefDef, a: ObjRef, o: ObjRef)
    requires SideOf(d, a.kind, a.storeCode).Ok?
    requires SideOf(d, o.kind, o.storeCode) == Ok(Opposite(SideOf(d, a.kind, a.storeCode).value))
    ensures KeyOf(prefixOf, o) != KeyOf(prefixOf, a)
  {
  }

  /** When every object sits on the side opposite the acting record and the
      counting rule holds, `addReference` succeeds, and the acting record's
      entry ends as the inserted ids after the earlier ones, or after nothing
      when the cardinality resets it (1:1, or 1:M acting from the target). */
  lemma OppositeSidesAdd(prefixOf: string -> string, defs: map<string, RefDef>, st: Stores,
                         acting: ObjRef, code: string, objects: seq<ObjRef>)
    requires code in defs
    requires SideOf(Normalise(defs[code]), acting.kind, acting.storeCode).Ok?
    requires AllOpposite(Normalise(defs[code]), SideOf(Normalise(defs[code]), acting.kind, acting.storeCode).value, objects)
    requires Validate(defs, acting.kind, acting.storeCode, acting.id, code, objects).Pass?
    ensures AddReference(prefixOf, defs, st, acting, code, objects).1 == Pass
    ensures EntryOrEmpty(AddReference(prefixOf, defs, st, acting, code, objects).0, KeyOf(prefixOf, acting), acting.id, code)
            == InsertAll(if Resets(defs, code, acting.kind, acting.storeCode) then []
                         else EntryOrEmpty(st, KeyOf(prefixOf, acting), acting.id, code), IdsOf(objects))
  {
    var d := Normalise(defs[code]);
    var side := SideOf(d, acting.kind, acting.storeCode).value;
    var ka := KeyOf(prefixOf, acting);
    forall i | 0 <= i < |objects|
      ensures KeyOf(prefixOf, objects[i]) != ka
      ensures Validate(defs, objects[i].kind, objects[i].storeCode, objects[i].id, code, [acting]).Pass?
    {
      var o := objects[i];
      OppositeSidesDifferentStores(prefixOf, d, acting, o);
      assert Opposite(Opposite(side)) == side;
      assert AllOpposite(d, Opposite(side), [acting]);
      ValidateOpposite(defs, o.kind, o.storeCode, o.id, code, [acting]);
    }
    var st1 := if Resets(defs, code, acting.kind, acting.storeCode) then Drop(st, ka, acting.id, code) else st;
    AddEachAccumulates(prefixOf, defs, st1, acting, code, objects);
  }

  /** Under M:M, from either side, ids accumulate: nothing earlier is
      dropped. */
  lemma ManyToManyAccumulates(prefixOf: string -> string, defs: map<string, RefDef>, st: Stores,
                              acting: ObjRef, code: string, objects: seq<ObjRef>)
    requires code in defs && defs[code].cardinality == ManyToMany
    requires SideOf(defs[code], acting.kind, acting.storeCode).Ok?
    requires AllOpposite(defs[code], SideOf(defs[code], acting.kind, acting.storeCode).value, objects)
    ensures AddReference(prefixOf, defs, st, acting, code, objects).1 == Pass
    ensures EntryOrEmpty(AddReference(prefixOf, defs, st, acting, code, objects).0, KeyOf(prefixOf, acting), acting.id, code)
            == InsertAll(EntryOrEmpty(st, KeyOf(prefixOf, acting), acting.id, code), IdsOf(objects))
  {
    ValidateOpposite(defs, acting.kind, acting.storeCode, acting.id, code, objects);
    OppositeSidesAdd(prefixOf, defs, st, acting, code, objects);
  }

  /** Under 1:1, linking a record with one on the other side that holds no
      link yet replaces the acting record's link and writes the inverse: each
      now names exactly the other. */
  lemma OneToOneLinksBothWays(prefixOf: string -> string, defs: map<string, RefDef>, st: Stores,
                              acting: ObjRef, code: string, o: ObjRef)
    requires code in defs && defs[code].cardinality == OneToOne
    requires SideOf(defs[code], acting.kind, acting.storeCode).Ok?
    requires SideOf(defs[code], o.kind, o.storeCode) == Ok(Opposite(SideOf(defs[code], acting.kind, acting.storeCode).value))
    requires !HasEntry(prefixOf, st, o, code)
    ensures AddReference(prefixOf, defs, st, acting, code, [o]).1 == Pass
    ensures EntryOf(AddReference(prefixOf, defs, st, acting, code, [o]).0, KeyOf(prefixOf, acting), acting.id, code) == Some([o.id])
    ensures EntryOf(AddReference(prefixOf, defs, st, acting, code, [o]).0, KeyOf(prefixOf, o), o.id, code) == Some([acting.id])
  {
    var d := defs[code];
    assert Normalise(d) == d;
    var side := SideOf(d, acting.kind, acting.storeCode).value;
    var ka := KeyOf(prefixOf, acting);
    var ko := KeyOf(prefixOf, o);
    assert AllOpposite(d, side, [o]);
    ValidateOpposite(defs, acting.kind, acting.storeCode, acting.id, code, [o]);
    OppositeSidesDifferentStores(prefixOf, d, acting, o);
    assert Opposite(Opposite(side)) == side;
    assert AllOpposite(d, Opposite(side), [acting]);
    ValidateOpposite(defs, o.kind, o.storeCode, o.id, code, [acting]);
    assert Resets(defs, code, acting.kind, acting.storeCode);
    assert Resets(defs, code, o.kind, o.storeCode);
    var st0 := Drop(st, ka, acting.id, code);
    assert EntryOrEmpty(st0, ka, acting.id, code) == [];
    assert Insert([], o.id) == [o.id];
    var st1 := Put(st0, ka, acting.id, code, o.id);
    assert EntryOf(st1, ka, acting.id, code) == Some([o.id]);
    assert !HasEntry(prefixOf, st1, o, code);
    assert EntryOrEmpty(Drop(st1, ko, o.id, code), ko, o.id, code) == [];
    assert Insert([], acting.id) == [acting.id];
    var st2 := Put(Drop(st1, ko, o.id, code), ko, o.id, code, acting.id);
    assert AddInverse(prefixOf, defs, st1, o, acting, code) == (st2, Pass);
    assert [o][1..] == [];
    assert AddEach(prefixOf, defs, st0, acting, code, [o]) == (st2, Pass);
    assert EntryOf(st2, ko, o.id, code) == Some([acting.id]);
  }

  /** Under 1:1, an object that already holds a link gets no inverse write:
      validation consults only the definitions, so a second claimant is
      accepted and the object keeps naming its earlier partner. */
  lemma OneToOneKeepsEarlierPartner(prefixOf: string -> string, defs: map<string, RefDef>, st: Stores,
                                    acting: ObjRef, code: string, o: ObjRef)
    requires code in defs && defs[code].cardinality == OneToOne
    requires SideOf(defs[code], acting.kind, acting.storeCode).Ok?
    requires SideOf(defs[code], o.kind, o.storeCode) == Ok(Opposite(SideOf(defs[code], acting.kind, acting.storeCode).value))
    requires HasEntry(prefixOf, st, o, code)
    ensures AddReference(prefixOf, defs, st, acting, code, [o]).1 == Pass
    ensures EntryOf(AddReference(prefixOf, defs, st, acting, code, [o]).0, KeyOf(prefixOf, o), o.id, code)
            == EntryOf(st, KeyOf(prefixOf, o), o.id, code)
  {
    var d := defs[code];
    assert Normalise(d) == d;
    var side := SideOf(d, acting.kind, acting.storeCode).value;
    var ka := KeyOf(prefixOf, acting);
    assert AllOpposite(d, side, [o]);
    ValidateOpposite(defs, acting.kind, acting.storeCode, acting.id, code, [o]);
    OppositeSidesDifferentStores(prefixOf, d, acting, o);
    var st1 := Put(Drop(st, ka, acting.id, code), ka, acting.id, code, o.id);
    assert EntryOf(st1, KeyOf(prefixOf, o), o.id, code) == EntryOf(st, KeyOf(prefixOf, o), o.id, code);
    assert [o][1..] == [];
    assert AddEach(prefixOf, defs, Drop(st, ka, acting.id, code), acting, code, [o]) == (st1, Pass);
  }

  /** The corrected `deleteReference` loop: remove each object's id from the
      acting record's entry and, when the object's entry names the acting
      record, remove that inverse id too. The nested call's own guard then
      finds the object's id gone from the acting record and stops. */
  function DeleteEach(prefixOf: string -> string, st: Stores, acting: ObjRef, code: string,
                      objects: seq<ObjRef>): Stores
    decreases |objects|
  {
    if objects == [] then st
    else
      var o := objects[0];
      var ko := KeyOf(prefixOf, o);
      var st1 := Remove(st, KeyOf(prefixOf, acting), acting.id, code, o.id);
      var st2 := if Links(st1, ko, o.id, code, acting.id) then Remove(st1, ko, o.id, code, acting.id) else st1;
      DeleteEach(prefixOf, st2, acting, code, objects[1..])
  }

  /** The entry of `id` for `code` names `x`. */
  predicate Links(st: Stores, k: StoreKey, id: string, code: string, x: string) {
    EntryOf(st, k, id, code).Some? && x in EntryOf(st, k, id, code).value
  }

  /** Removing never creates a link. */
  lemma RemoveNeverLinks(st: Stores, k: StoreKey, id: string, code: string, x: string,
                         k': StoreKey, id': string, code': string, y: string)
    ensures Links(Remove(st, k, id, code, x), k', id', code', y) ==> Links(st, k', id', code', y)
    ensures !Links(Remove(st, k, id, code, x), k, id, code, x)
  {
  }

  lemma {:induction false} DeleteEachNeverLinks(prefixOf: string -> string, st: Stores, acting: ObjRef, code: string,
                                                objects: seq<ObjRef>, k: StoreKey, id: string, y: string)
    ensures Links(DeleteEach(prefixOf, st, acting, code, objects), k, id, code, y) ==> Links(st, k, id, code, y)
    decreases |objects|
  {
    if objects != [] {
      var o := objects[0];
      var ko := KeyOf(prefixOf, o);
      var st1 := Remove(st, KeyOf(prefixOf, acting), acting.id, code, o.id);
      var st2 := if Links(st1, ko, o.id, code, acting.id) then Remove(st1, ko, o.id, code, acting.id) else st1;
      DeleteEachNeverLinks(prefixOf, st2, acting, code, objects[1..], k, id, y);
      RemoveNeverLinks(st, KeyOf(prefixOf, acting), acting.id, code, o.id, k, id, code, y);
      RemoveNeverLinks(st1, ko, o.id, code, acting.id, k, id, code, y);
    }
  }

  /** After the corrected `deleteReference`, the acting record names none of
      the objects and none of the objects names the acting record. */
  lemma {:induction false} DeleteUnlinksBothWays(prefixOf: string -> string, st: Stores, acting: ObjRef, code: string,
                                                 objects: seq<ObjRef>)
    ensures forall i :: 0 <= i < |objects| ==>
      !Links(DeleteEach(prefixOf, st, acting, code, objects), KeyOf(prefixOf, acting), acting.id, code, objects[i].id)
    ensures forall i :: 0 <= i < |objects| ==>
      !Links(DeleteEach(prefixOf, st, acting, code, objects), KeyOf(prefixOf, objects[i]), objects[i].id, code, acting.id)
    decreases |objects|
  {
    if objects != [] {
      var o := objects[0];
      var ka := KeyOf(prefixOf, acting);
      var ko := KeyOf(prefixOf, o);
      var st1 := Remove(st, ka, acting.id, code, o.id);
      var st2 := if Links(st1, ko, o.id, code, acting.id) then Remove(st1, ko, o.id, code, acting.id) else st1;
      var rest := objects[1..];
      DeleteUnlinksBothWays(prefixOf, st2, acting, code, rest);
      RemoveNeverLinks(st, ka, acting.id, code, o.id, ka, acting.id, code, o.id);
      if Links(st1, ko, o.id, code, acting.id) {
        RemoveNeverLinks(st1, ko, o.id, code, acting.id, ka, acting.id, code, o.id);
        RemoveNeverLinks(st1, ko, o.id, code, acting.id, ko, o.id, code, acting.id);
      }
      assert !Links(st2, ka, acting.id, code, o.id) && !Links(st2, ko, o.id, code, acting.id);
      DeleteEachNeverLinks(prefixOf, st2, acting, code, rest, ka, acting.id, o.id);
      DeleteEachNeverLinks(prefixOf, st2, acting, code, rest, ko, o.id, acting.id);
      forall i | 1 <= i < |objects|
        ensures !Links(DeleteEach(prefixOf, st, acting, code, objects), ka, acting.id, code, objects[i].id)
        ensures !Links(DeleteEach(prefixOf, st, acting, code, objects), KeyOf(prefixOf, objects[i]), objects[i].id, code, acting.id)
      {
        assert objects[i] == rest[i - 1];
      }
    }
  }

  /** `getReference`, up to the record details it attaches: null without an
      entry or without a definition, else the single id or the id list. */
  function ReferenceShape(prefixOf: string -> string, defs: map<string, RefDef>, st: Stores,
                          o: ObjRef, code: string): (r: RefShape)
    ensures r.NoReference? <==> !HasEntry(prefixOf, st, o, code) || code !in defs
    ensures r.OneId? ==> EntryOf(st, KeyOf(prefixOf, o), o.id, code) == Some([r.id])
    ensures r.IdList? ==> EntryOf(st, KeyOf(prefixOf, o), o.id, code) == Some(r.ids) && |r.ids| != 1
  {
    if code !in defs then NoReference else ShapeOf(EntryOf(st, KeyOf(prefixOf, o), o.id, code))
  }

  lemma {:induction false} UndefinedCodeEachPasses(prefixOf: string -> string, defs: map<string, RefDef>, st: Stores,
                                                   acting: ObjRef, code: string, objects: seq<ObjRef>)
    requires code !in defs
    ensures AddEach(prefixOf, defs, st, acting, code, objects).1 == Pass
    decreases |objects|
  {
    if objects != [] {
      var o := objects[0];
      var st1 := Put(st, KeyOf(prefixOf, acting), acting.id, code, o.id);
      if HasEntry(prefixOf, st1, o, code) {
        UndefinedCodeEachPasses(prefixOf, defs, st1, acting, code, objects[1..]);
      } else {
        UndefinedCodeEachPasses(prefixOf, defs, AddInverse(prefixOf, defs, st1, o, acting, code).0,
                                acting, code, objects[1..]);
      }
    }
  }

  /** A code with no definition: `addReference` passes, yet afterwards
      `getReference` still reads null for the acting record and for every
      object, which is the guard under which the source makes the nested
      `addReference` call. */
  lemma UndefinedCodeGuardStaysOpen(prefixOf: string -> string, defs: map<string, RefDef>, st: Stores,
                                    acting: ObjRef, code: string, objects: seq<ObjRef>)
    requires code !in defs
    ensures var r := AddReference(prefixOf, defs, st, acting, code, objects);
      && r.1 == Pass
      && ReferenceShape(prefixOf, defs, r.0, acting, code).NoReference?
      && forall o :: o in objects ==> ReferenceShape(prefixOf, defs, r.0, o, code).NoReference?
  {
    UndefinedCodeEachPasses(prefixOf, defs, st, acting, code, objects);
  }
}
