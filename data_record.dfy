/** The legacy single-record object of DataRecord.php: a property map whose
    reads fall back to the declared default, a unique-value check delegated to
    the record's store, and a reference map from reference code to an ordered
    set of ids. */
module LegacyRecord {
  import opened Base
  import opened OrderedSets
  import opened Registry

  class DataRecord {
    const id: string
    const store: DataStore
    const project: string
    var properties: map<string, Value>
    var references: map<string, seq<string>>

    /** A record with nothing loaded (reading and writing disabled). */
    constructor (store: DataStore, id: string, project: string)
      ensures this.store == store && this.id == id && this.project == project
      ensures properties == map[] && references == map[]
    {
      this.store := store;
      this.id := id;
      this.project := project;
      properties := map[];
      references := map[];
    }

    /** `isset($this->properties[$code])`: set and not null. */
    predicate HasValue(code: string)
      reads this
    {
      code in properties && properties[code] != Null
    }

    /** `getValue`: throws for an undeclared code, else the stored value when
        one is set, else the declared default. */
    function GetValue(factory: StorageFactory, code: string): (r: Result<Value>)
      reads this, factory
      ensures r.Err? <==> code !in factory.dataProps
      ensures r.Err? ==> r.error == PropertyNotFound
      ensures r.Ok? && HasValue(code) ==> r.value == properties[code]
      ensures r.Ok? && !HasValue(code) ==> r.value == factory.dataProps[code].default
    {
      match factory.GetDataRecordProperty(code)
      case None => Err(PropertyNotFound)
      case Some(prop) => if HasValue(code) then Ok(properties[code]) else Ok(prop.default)
    }

    /** `setValue`: throws, changing nothing, for an undeclared code or for a
        unique value the store already maps to a record; otherwise registers a
        unique value with the store, then stores the value. */
    method SetValue(factory: StorageFactory, code: string, value: Value) returns (r: Outcome)
      modifies this, store
      ensures code !in factory.dataProps ==> r == Fail(PropertyNotFound)
      ensures (&& code in factory.dataProps && factory.dataProps[code].propType == "unique"
               && (code, value) in old(store.uniqueIndex)) ==> r == Fail(DuplicateValue)
      ensures (&& code in factory.dataProps
               && !(factory.dataProps[code].propType == "unique" && (code, value) in old(store.uniqueIndex))) ==> r == Pass
      ensures r.Fail? ==> properties == old(properties) && store.uniqueIndex == old(store.uniqueIndex)
      ensures r.Pass? ==> properties == old(properties)[code := value]
      ensures r.Pass? && factory.dataProps[code].propType == "unique" ==>
                store.uniqueIndex == old(store.uniqueIndex)[(code, value) := id]
      ensures r.Pass? && factory.dataProps[code].propType != "unique" ==>
                store.uniqueIndex == old(store.uniqueIndex)
      ensures r.Pass? && value != Null ==> GetValue(factory, code) == Ok(value)
      ensures references == old(references)
    {
      var prop := factory.GetDataRecordProperty(code);
      if prop.None? {
        return Fail(PropertyNotFound);
      }
      if prop.value.propType == "unique" {
        if store.UniqueHolder(code, value).Some? {
          return Fail(DuplicateValue);
        }
        store.ClaimUnique(code, value, id);
      }
      properties := properties[code := value];
      return Pass;
    }

    /** The entry for `code`, if the code was ever added. */
    function Entry(code: string): Option<seq<string>>
      reads this
    {
      if code in references then Some(references[code]) else None
    }

    /** `getReference`: null, the single id, or the list of ids. */
    function GetReference(code: string): (r: RefShape)
      reads this
      ensures r.NoReference? <==> code !in references
      ensures r.OneId? <==> code in references && |references[code]| == 1
      ensures r.OneId? ==> references[code] == [r.id]
      ensures r.IdList? ==> references[code] == r.ids
    {
      ShapeOf(Entry(code))
    }

    /** `addReference`: inserts each object's id into the set for `code`,
        creating it when absent; ids already present stay where they are. */
    method AddReference(code: string, objects: OneOrMany<string>)
      modifies this
      ensures references == old(references)[code := InsertAll(old(EntryOrEmpty(code)), AsList(objects))]
      ensures properties == old(properties)
    {
      var entry := if code in references then references[code] else [];
      entry := InsertEach(entry, AsList(objects));
      references := references[code := entry];
    }

    /** `setReference`: does not clear earlier ids, so it acts as
        `addReference`. */
    method SetReference(code: string, objects: OneOrMany<string>)
      modifies this
      ensures references == old(references)[code := InsertAll(old(EntryOrEmpty(code)), AsList(objects))]
      ensures properties == old(properties)
    {
      ghost var before := EntryOrEmpty(code);
      if code !in references {
        references := references[code := []];
      }
      assert EntryOrEmpty(code) == before;
      AddReference(code, objects);
    }

    function EntryOrEmpty(code: string): seq<string>
      reads this
    {
      if code in references then references[code] else []
    }
  }

  /** The loop of `addReference`: set-insert each id in turn. */
  method InsertEach(entry: seq<string>, ids: seq<string>) returns (r: seq<string>)
    ensures r == InsertAll(entry, ids)
  {
    r := entry;
    assert ids[0..] == ids;
    var i := 0;
    while i < |ids|
      invariant 0 <= i <= |ids|
      invariant InsertAll(r, ids[i..]) == InsertAll(entry, ids)
    {
      InsertAllStep(r, ids, i);
      r := Insert(r, ids[i]);
      i := i + 1;
    }
    assert ids[i..] == [];
  }

  /** One iteration of the insertion loop. */
  lemma InsertAllStep(entry: seq<string>, ids: seq<string>, i: nat)
    requires i < |ids|
    ensures InsertAll(entry, ids[i..]) == InsertAll(Insert(entry, ids[i]), ids[i + 1..])
  {
    assert ids[i..][1..] == ids[i + 1..];
  }

  /** Adding the same objects twice gives the set that adding them once
      gives: `addReference` is idempotent. */
  lemma AddReferenceIdempotent(entry: seq<string>, objects: OneOrMany<string>)
    ensures InsertAll(InsertAll(entry, AsList(objects)), AsList(objects)) == InsertAll(entry, AsList(objects))
  {
    InsertAllIdempotent(entry, AsList(objects));
  }
}
