/** The engine state of SimulatorHandler.php as a value, the invariant every
    operation keeps, and the record-creating and property operations as
    functions of that value. The engine class proves its methods against
    these functions. */
module EngineSpec {
  import opened Base
  import opened Ids
  import opened OrderedSets
  import opened RecordStore
  import opened ReferenceRules
  import opened Linking
  import opened ArrayKeys

  /** What the engine consults but does not define: the project prefix of a
      store code (`Bootstrap::getProjectPrefix`), the qualified class name of a
      custom data record type, the URL synthesised for an unset image or file
      property, and the upload check of an image or file value (none when it
      throws). */
  datatype Env = Env(
    prefixOf: string -> string,
    typeClassOf: (string, string) -> string,
    assetUrl: (ObjectType, string, PropDef) -> Value,
    prepareAsset: (ObjectType, string, Value) -> Option<Value>)

  /** Declared properties, `properties[kind][project][code]`. */
  type Schema = map<(ObjectType, string, string), PropDef>

  /** What `save` writes: the three counters and the stores. Project property
      values, which PHP keeps under `stores['project'][project][code]`, are
      kept apart, keyed by (project, code). */
  datatype Snapshot = Snapshot(
    dataRecordSequence: nat,
    userSequence: nat,
    userGroupSequence: nat,
    stores: Stores,
    projectValues: map<(string, string), Value>)

  function KeyFor(env: Env, kind: ObjectType, storeCode: string): StoreKey {
    StoreKey(kind, env.prefixOf(storeCode), storeCode)
  }

  // ---------------------------------------------------------------------------
  // The invariant

  /** A record is stored under its own id, in a store of its kind, under an id
      its kind's counter has minted. */
  predicate RecordFits(kind: ObjectType, id: string, r: Record, dataSeq: nat, userSeq: nat) {
    && r.id == id
    && match r
       case DataRec(_, _, _, _, _) => kind == Data && IssuedBy(id, dataSeq)
       case UserRec(_, _, _, _, _, _, _) => kind == User && IssuedBy(id, userSeq)
  }

  predicate StoreConsistent(kind: ObjectType, s: Store, dataSeq: nat, userSeq: nat, groupSeq: nat) {
    && WellFormedTree(s)
    && (forall id :: id in s.records ==> RecordFits(kind, id, s.records[id], dataSeq, userSeq))
    && (forall g :: g in s.groups ==> s.groups[g].groupId == g && IssuedBy(g, groupSeq))
  }

  predicate Consistent(snap: Snapshot) {
    forall k :: k in snap.stores ==>
      StoreConsistent(k.kind, snap.stores[k], snap.dataRecordSequence, snap.userSequence, snap.userGroupSequence)
  }

  lemma ConsistentStoreAt(snap: Snapshot, k: StoreKey)
    requires Consistent(snap)
    ensures StoreConsistent(k.kind, StoreAt(snap.stores, k), snap.dataRecordSequence, snap.userSequence, snap.userGroupSequence)
  {
  }

  /** Every store keeps its records and groups. */
  ghost predicate SameRecords(a: Stores, b: Stores) {
    forall k :: StoreAt(a, k).records == StoreAt(b, k).records && StoreAt(a, k).groups == StoreAt(b, k).groups
  }

  /** Replacing one store by another with the same records and groups keeps
      the invariant. */
  lemma SameShapeKeepsConsistent(snap: Snapshot, k: StoreKey, s: Store)
    requires Consistent(snap)
    requires s.records == StoreAt(snap.stores, k).records && s.groups == StoreAt(snap.stores, k).groups
    ensures Consistent(snap.(stores := snap.stores[k := s]))
  {
    ConsistentStoreAt(snap, k);
    SameRecordsSameTree(StoreAt(snap.stores, k), s);
  }

  /** Operations that touch only values, references and indexes keep the
      invariant. */
  lemma SameRecordsKeepConsistent(snap: Snapshot, st: Stores, pv: map<(string, string), Value>)
    requires Consistent(snap) && SameRecords(snap.stores, st)
    ensures Consistent(snap.(stores := st, projectValues := pv))
  {
    forall k | k in st
      ensures StoreConsistent(k.kind, st[k], snap.dataRecordSequence, snap.userSequence, snap.userGroupSequence)
    {
      ConsistentStoreAt(snap, k);
      assert st[k].records == StoreAt(snap.stores, k).records;
      SameRecordsSameTree(StoreAt(snap.stores, k), st[k]);
    }
  }

  /** The ids the counters mint next are in no store of their kind. */
  lemma NextIdsFresh(snap: Snapshot, k: StoreKey)
    requires Consistent(snap)
    ensures k.kind == Data ==> IdOf(snap.dataRecordSequence + 1) !in StoreAt(snap.stores, k).records
    ensures k.kind == User ==> IdOf(snap.userSequence + 1) !in StoreAt(snap.stores, k).records
    ensures IdOf(snap.userGroupSequence + 1) !in StoreAt(snap.stores, k).groups
  {
    var s := StoreAt(snap.stores, k);
    ConsistentStoreAt(snap, k);
    forall id | id in s.records
      ensures k.kind == Data ==> id != IdOf(snap.dataRecordSequence + 1)
      ensures k.kind == User ==> id != IdOf(snap.userSequence + 1)
    {
      assert RecordFits(k.kind, id, s.records[id], snap.dataRecordSequence, snap.userSequence);
      if k.kind == Data {
        NextIdIsFresh(id, snap.dataRecordSequence);
      } else if k.kind == User {
        NextIdIsFresh(id, snap.userSequence);
      }
    }
    forall g | g in s.groups
      ensures g != IdOf(snap.userGroupSequence + 1)
    {
      NextIdIsFresh(g, snap.userGroupSequence);
    }
  }

  /** Raising the counters keeps every store consistent. */
  lemma RaiseCounters(snap: Snapshot, d: nat, u: nat, g: nat)
    requires Consistent(snap)
    requires snap.dataRecordSequence <= d && snap.userSequence <= u && snap.userGroupSequence <= g
    ensures Consistent(snap.(dataRecordSequence := d, userSequence := u, userGroupSequence := g))
  {
    forall k | k in snap.stores
      ensures StoreConsistent(k.kind, snap.stores[k], d, u, g)
    {
      var s := snap.stores[k];
      forall id | id in s.records
        ensures RecordFits(k.kind, id, s.records[id], d, u)
      {
        assert RecordFits(k.kind, id, s.records[id], snap.dataRecordSequence, snap.userSequence);
      }
    }
  }

  // ---------------------------------------------------------------------------
  // Creating records, users and groups

  /** `createDataRecord`: null, changing nothing, when a given parent is not
      in the store; otherwise the data counter advances by one and the record
      is stored under the id minted from it. */
  function CreateDataRecordIn(env: Env, snap: Snapshot, storeCode: string, customType: string,
                              parent: Option<string>): (r: (Snapshot, Option<Record>))
    requires Consistent(snap)
    ensures var s := StoreAt(snap.stores, KeyFor(env, Data, storeCode));
      r.1.None? <==> parent.Some? && parent.value !in s.records
    ensures r.1.None? ==> r.0 == snap
    ensures r.1.Some? ==>
      && r.0.dataRecordSequence == snap.dataRecordSequence + 1
      && r.0.userSequence == snap.userSequence && r.0.userGroupSequence == snap.userGroupSequence
      && r.0.projectValues == snap.projectValues
      && r.1.value.id == IdOf(r.0.dataRecordSequence)
      && r.1.value.id !in StoreAt(snap.stores, KeyFor(env, Data, storeCode)).records
  {
    var k := KeyFor(env, Data, storeCode);
    var s := StoreAt(snap.stores, k);
    if parent.Some? && parent.value !in s.records then (snap, None)
    else
      var n := snap.dataRecordSequence + 1;
      var rid := IdOf(n);
      NextIdsFresh(snap, k);
      ConsistentStoreAt(snap, k);
      assert parent.Some? ==> RecordFits(Data, parent.value, s.records[parent.value], snap.dataRecordSequence, snap.userSequence);
      var s' := AddDataRecord(s, rid, env.typeClassOf(storeCode, customType), parent);
      (snap.(dataRecordSequence := n, stores := snap.stores[k := s']), Some(s'.records[rid]))
  }

  /** When the parent is present, `CreateDataRecordIn` is the counter
      increment followed by `AddDataRecord` under the next id, whose
      preconditions hold. */
  lemma CreateDataRecordInWrites(env: Env, snap: Snapshot, storeCode: string, customType: string,
                                 parent: Option<string>)
    requires Consistent(snap)
    requires parent.Some? ==> parent.value in StoreAt(snap.stores, KeyFor(env, Data, storeCode)).records
    ensures IdOf(snap.dataRecordSequence + 1) !in StoreAt(snap.stores, KeyFor(env, Data, storeCode)).records
    ensures parent.Some? ==> IsData(StoreAt(snap.stores, KeyFor(env, Data, storeCode)), parent.value)
    ensures var k := KeyFor(env, Data, storeCode);
      var n := snap.dataRecordSequence + 1;
      var s' := AddDataRecord(StoreAt(snap.stores, k), IdOf(n), env.typeClassOf(storeCode, customType), parent);
      CreateDataRecordIn(env, snap, storeCode, customType, parent)
      == (snap.(dataRecordSequence := n, stores := snap.stores[k := s']), Some(s'.records[IdOf(n)]))
  {
    var k := KeyFor(env, Data, storeCode);
    var s := StoreAt(snap.stores, k);
    NextIdsFresh(snap, k);
    ConsistentStoreAt(snap, k);
    assert parent.Some? ==> RecordFits(Data, parent.value, s.records[parent.value], snap.dataRecordSequence, snap.userSequence);
  }

  /** The new record hangs at depth 1, or one below its parent, and its
      parent lists it as a child. */
  lemma CreatedRecordDepth(env: Env, snap: Snapshot, storeCode: string, customType: string, parent: Option<string>)
    requires Consistent(snap)
    requires CreateDataRecordIn(env, snap, storeCode, customType, parent).1.Some?
    ensures var k := KeyFor(env, Data, storeCode);
      var r := CreateDataRecordIn(env, snap, storeCode, customType, parent);
      && r.1.value.DataRec? && r.1.value.parent == parent && r.1.value.children == []
      && (parent.None? ==> r.1.value.depth == 1)
      && (parent.Some? ==>
            && r.1.value.depth == StoreAt(snap.stores, k).records[parent.value].depth + 1
            && r.1.value.id in StoreAt(r.0.stores, k).records[parent.value].children)
  {
    var k := KeyFor(env, Data, storeCode);
    NextIdsFresh(snap, k);
    ConsistentStoreAt(snap, k);
    var s := StoreAt(snap.stores, k);
    assert parent.Some? ==> RecordFits(Data, parent.value, s.records[parent.value], snap.dataRecordSequence, snap.userSequence);
  }

  /** Replacing one store by a consistent one keeps the invariant. */
  lemma StoreUpdateKeepsConsistent(snap: Snapshot, k: StoreKey, s: Store)
    requires Consistent(snap)
    requires StoreConsistent(k.kind, s, snap.dataRecordSequence, snap.userSequence, snap.userGroupSequence)
    ensures Consistent(snap.(stores := snap.stores[k := s]))
  {
  }

  /** Every record of a data store stays in place under its own id when a
      record with a freshly minted id is added. */
  lemma AddedRecordsFit(s: Store, rid: string, typeClass: string, parent: Option<string>, n: nat, u: nat)
    requires rid !in s.records && rid == IdOf(n) && n >= 1
    requires parent.Some? ==> IsData(s, parent.value)
    requires forall id :: id in s.records ==> RecordFits(Data, id, s.records[id], n - 1, u)
    ensures var r := AddDataRecord(s, rid, typeClass, parent);
      forall id :: id in r.records ==> RecordFits(Data, id, r.records[id], n, u)
  {
    var r := AddDataRecord(s, rid, typeClass, parent);
    SequenceOfIdOf(n);
    forall id | id in r.records
      ensures RecordFits(Data, id, r.records[id], n, u)
    {
      if id != rid {
        assert RecordFits(Data, id, s.records[id], n - 1, u);
        assert r.records[id].id == s.records[id].id && r.records[id].DataRec?;
      }
    }
  }

  lemma CreateDataRecordKeepsConsistent(env: Env, snap: Snapshot, storeCode: string, customType: string,
                                        parent: Option<string>)
    requires Consistent(snap)
    ensures Consistent(CreateDataRecordIn(env, snap, storeCode, customType, parent).0)
  {
    var k := KeyFor(env, Data, storeCode);
    var s := StoreAt(snap.stores, k);
    if !(parent.Some? && parent.value !in s.records) {
      var n := snap.dataRecordSequence + 1;
      var rid := IdOf(n);
      var tc := env.typeClassOf(storeCode, customType);
      CreateDataRecordInWrites(env, snap, storeCode, customType, parent);
      ConsistentStoreAt(snap, k);
      var s' := AddDataRecord(s, rid, tc, parent);
      AddDataRecordKeepsTree(s, rid, tc, parent);
      AddedRecordsFit(s, rid, tc, parent, n, snap.userSequence);
      RaiseCounters(snap, n, snap.userSequence, snap.userGroupSequence);
      var raised := snap.(dataRecordSequence := n);
      assert StoreConsistent(Data, s', n, snap.userSequence, snap.userGroupSequence);
      StoreUpdateKeepsConsistent(raised, k, s');
    }
  }

  /** `createUser`: the user counter advances by one; the user is stored under
      the id minted from it, with the fixed user type, and the username points
      at it. */
  function CreateUserIn(env: Env, snap: Snapshot, storeCode: string, username: string, firstName: string,
                        lastName: string, groups: seq<string>): (r: (Snapshot, Record))
    ensures r.0.userSequence == snap.userSequence + 1
    ensures r.0.dataRecordSequence == snap.dataRecordSequence && r.0.userGroupSequence == snap.userGroupSequence
    ensures r.0.projectValues == snap.projectValues
    ensures r.1 == UserRec(IdOf(r.0.userSequence), username, UserTypeClass, groups, firstName, lastName, map[])
    ensures UserByUsername(StoreAt(r.0.stores, KeyFor(env, User, storeCode)), username) == Some(r.1)
  {
    var k := KeyFor(env, User, storeCode);
    var n := snap.userSequence + 1;
    var s' := AddUser(StoreAt(snap.stores, k), IdOf(n), username, firstName, lastName, groups);
    (snap.(userSequence := n, stores := snap.stores[k := s']), s'.records[IdOf(n)])
  }

  lemma AddedUserFits(s: Store, rid: string, username: string, firstName: string, lastName: string,
                      groups: seq<string>, d: nat, n: nat)
    requires rid == IdOf(n) && n >= 1
    requires forall id :: id in s.records ==> RecordFits(User, id, s.records[id], d, n - 1)
    ensures var r := AddUser(s, rid, username, firstName, lastName, groups);
      forall id :: id in r.records ==> RecordFits(User, id, r.records[id], d, n)
  {
    var r := AddUser(s, rid, username, firstName, lastName, groups);
    SequenceOfIdOf(n);
    forall id | id in r.records
      ensures RecordFits(User, id, r.records[id], d, n)
    {
      if id != rid {
        assert RecordFits(User, id, s.records[id], d, n - 1);
      }
    }
  }

  lemma CreateUserKeepsConsistent(env: Env, snap: Snapshot, storeCode: string, username: string,
                                  firstName: string, lastName: string, groups: seq<string>)
    requires Consistent(snap)
    ensures Consistent(CreateUserIn(env, snap, storeCode, username, firstName, lastName, groups).0)
  {
    var k := KeyFor(env, User, storeCode);
    var n := snap.userSequence + 1;
    var s := StoreAt(snap.stores, k);
    var s' := AddUser(s, IdOf(n), username, firstName, lastName, groups);
    ConsistentStoreAt(snap, k);
    AddedUserFits(s, IdOf(n), username, firstName, lastName, groups, snap.dataRecordSequence, n);
    UsersOnlyTree(s');
    RaiseCounters(snap, snap.dataRecordSequence, n, snap.userGroupSequence);
    var raised := snap.(userSequence := n);
    assert StoreConsistent(User, s', snap.dataRecordSequence, n, snap.userGroupSequence);
    StoreUpdateKeepsConsistent(raised, k, s');
  }


  /** `createGroup`: the group counter advances by one and the group is stored
      under the id minted from it. */
  function CreateGroupIn(env: Env, snap: Snapshot, storeCode: string, groupName: string,
                         parentGroups: seq<string>): (r: (Snapshot, Group))
    ensures r.0.userGroupSequence == snap.userGroupSequence + 1
    ensures r.0.dataRecordSequence == snap.dataRecordSequence && r.0.userSequence == snap.userSequence
    ensures r.1 == Group(IdOf(r.0.userGroupSequence), groupName, parentGroups)
    ensures GroupById(StoreAt(r.0.stores, KeyFor(env, User, storeCode)), r.1.groupId) == Some(r.1)
  {
    var k := KeyFor(env, User, storeCode);
    var n := snap.userGroupSequence + 1;
    var s' := AddGroup(StoreAt(snap.stores, k), IdOf(n), groupName, parentGroups);
    (snap.(userGroupSequence := n, stores := snap.stores[k := s']), s'.groups[IdOf(n)])
  }

  lemma CreateGroupKeepsConsistent(env: Env, snap: Snapshot, storeCode: string, groupName: string,
                                   parentGroups: seq<string>)
    requires Consistent(snap)
    ensures Consistent(CreateGroupIn(env, snap, storeCode, groupName, parentGroups).0)
  {
    var k := KeyFor(env, User, storeCode);
    var n := snap.userGroupSequence + 1;
    ConsistentStoreAt(snap, k);
    RaiseCounters(snap, snap.dataRecordSequence, snap.userSequence, n);
    SequenceOfIdOf(n);
  }

  /** The id a created data record gets was in no data store before, not
      only in the one it is created in. */
  lemma CreatedIdFreshEverywhere(env: Env, snap: Snapshot, storeCode: string, customType: string,
                                 parent: Option<string>, k: StoreKey)
    requires Consistent(snap) && k.kind == Data
    requires CreateDataRecordIn(env, snap, storeCode, customType, parent).1.Some?
    ensures CreateDataRecordIn(env, snap, storeCode, customType, parent).1.value.id !in StoreAt(snap.stores, k).records
  {
    NextIdsFresh(snap, k);
  }

  // ---------------------------------------------------------------------------
  // Property values

  /** `isset($this->stores['project'][$project][$code])`. */
  predicate HasProjectValue(snap: Snapshot, project: string, code: string) {
    (project, code) in snap.projectValues && snap.projectValues[(project, code)] != Null
  }

  /** `isset(...['records'][$id][$code])`. */
  predicate HasRecordValue(s: Store, id: string, code: string) {
    (id, code) in s.values && s.values[(id, code)] != Null
  }

  predicate IsAsset(prop: PropDef) {
    prop.propType == "image" || prop.propType == "file"
  }

  /** `getPropertyValue`: throws for an undeclared code; else a set project
      value (project kind), else the record's set value, else the synthesised
      URL of an image or file property, else the declared default. */
  function ValueOf(env: Env, schema: Schema, snap: Snapshot, kind: ObjectType, storeCode: string,
                   id: string, code: string): (r: Result<Value>)
    ensures r.Err? <==> (kind, env.prefixOf(storeCode), code) !in schema
    ensures r.Err? ==> r.error == PropertyNotFound
  {
    var project := env.prefixOf(storeCode);
    if (kind, project, code) !in schema then Err(PropertyNotFound)
    else if kind == Project && HasProjectValue(snap, project, code) then Ok(snap.projectValues[(project, code)])
    else if HasRecordValue(StoreAt(snap.stores, KeyFor(env, kind, storeCode)), id, code)
    then Ok(StoreAt(snap.stores, KeyFor(env, kind, storeCode)).values[(id, code)])
    else if IsAsset(schema[(kind, project, code)]) then Ok(env.assetUrl(kind, code, schema[(kind, project, code)]))
    else Ok(schema[(kind, project, code)].default)
  }

  /** The value `setPropertyValue` stores once its checks pass: the prepared
      upload for an image or file property, else the value itself. */
  function Stored(env: Env, prop: PropDef, kind: ObjectType, code: string, value: Value): Option<Value> {
    if prop.propType != "unique" && IsAsset(prop) then env.prepareAsset(kind, code, value) else Some(value)
  }

  /** `setPropertyValue`. */
  function SetValueIn(env: Env, schema: Schema, snap: Snapshot, kind: ObjectType, storeCode: string,
                      id: string, code: string, value: Value): (r: (Snapshot, Outcome))
    ensures r.1.Fail? ==> r.0 == snap
  {
    var project := env.prefixOf(storeCode);
    var k := KeyFor(env, kind, storeCode);
    if value == Null then (snap, Fail(NotNullViolation))
    else if (kind, project, code) !in schema then (snap, Fail(PropertyNotFound))
    else
      var prop := schema[(kind, project, code)];
      if prop.propType == "unique" && (code, KeyOfValue(value)) in StoreAt(snap.stores, k).uniqueMap then (snap, Fail(DuplicateValue))
      else if Stored(env, prop, kind, code, value).None? then (snap, Fail(UploadRejected))
      else
        var v := Stored(env, prop, kind, code, value).value;
        var claimed :=
          if prop.propType != "unique" then snap
          else if kind == Project then snap.(projectValues := snap.projectValues[(project, code) := Str(id)])
          else
            var s := StoreAt(snap.stores, k);
            snap.(stores := snap.stores[k := s.(uniqueMap := s.uniqueMap[(code, KeyOfValue(value)) := id])]);
        if kind == Project then (claimed.(projectValues := claimed.projectValues[(project, code) := v]), Pass)
        else
          var s := StoreAt(claimed.stores, k);
          (claimed.(stores := claimed.stores[k := s.(values := s.values[(id, code) := v])]), Pass)
  }

  /** The three refusals, each with its own error: a null value, an undeclared
      code, and a unique value already claimed (by any record, this one
      included). Nothing else is refused outside image and file uploads. */
  lemma SetValueRefusals(env: Env, schema: Schema, snap: Snapshot, kind: ObjectType, storeCode: string,
                         id: string, code: string, value: Value)
    ensures var r := SetValueIn(env, schema, snap, kind, storeCode, id, code, value);
      var key := (kind, env.prefixOf(storeCode), code);
      && (value == Null ==> r.1 == Fail(NotNullViolation))
      && (value != Null && key !in schema ==> r.1 == Fail(PropertyNotFound))
      && ((value != Null && key in schema && schema[key].propType == "unique"
           && (code, KeyOfValue(value)) in StoreAt(snap.stores, KeyFor(env, kind, storeCode)).uniqueMap)
          ==> r.1 == Fail(DuplicateValue))
      && ((value != Null && key in schema && !IsAsset(schema[key])
           && (schema[key].propType == "unique" ==> (code, KeyOfValue(value)) !in StoreAt(snap.stores, KeyFor(env, kind, storeCode)).uniqueMap))
          ==> r.1 == Pass)
  {
  }

  /** Round trip: after a successful set, the value reads back (prepared, for
      an image or file property). */
  lemma SetThenGet(env: Env, schema: Schema, snap: Snapshot, kind: ObjectType, storeCode: string,
                   id: string, code: string, value: Value)
    requires SetValueIn(env, schema, snap, kind, storeCode, id, code, value).1.Pass?
    requires Stored(env, schema[(kind, env.prefixOf(storeCode), code)], kind, code, value) != Some(Null)
    ensures ValueOf(env, schema, SetValueIn(env, schema, snap, kind, storeCode, id, code, value).0, kind, storeCode, id, code)
            == Ok(Stored(env, schema[(kind, env.prefixOf(storeCode), code)], kind, code, value).value)
  {
  }

  /** A claimed unique value maps to the claiming record, so
      `getDataRecordByValue` finds it under every string that indexes the
      same PHP array slot: `"5"` after a claim of `5`, `"1"` after `true`. */
  lemma SetUniqueClaims(env: Env, schema: Schema, snap: Snapshot, storeCode: string, id: string,
                        code: string, value: Value, lookup: string)
    requires SetValueIn(env, schema, snap, Data, storeCode, id, code, value).1.Pass?
    requires schema[(Data, env.prefixOf(storeCode), code)].propType == "unique"
    requires KeyOfValue(Str(lookup)) == KeyOfValue(value)
    ensures RecordByValue(env, SetValueIn(env, schema, snap, Data, storeCode, id, code, value).0, storeCode, code, lookup)
            == RecordById(env, snap, storeCode, id)
  {
  }

  /** Once a unique value is claimed, every value indexing the same slot is
      refused, for any record of the store: one holder per unique value. */
  lemma ClaimedKeyRefused(env: Env, schema: Schema, snap: Snapshot, kind: ObjectType, storeCode: string,
                          id: string, other: string, code: string, value: Value, next: Value)
    requires kind != Project
    requires SetValueIn(env, schema, snap, kind, storeCode, id, code, value).1.Pass?
    requires schema[(kind, env.prefixOf(storeCode), code)].propType == "unique"
    requires next != Null && KeyOfValue(next) == KeyOfValue(value)
    ensures var after := SetValueIn(env, schema, snap, kind, storeCode, id, code, value).0;
      SetValueIn(env, schema, after, kind, storeCode, other, code, next).1 == Fail(DuplicateValue)
  {
  }

  /** `getDataRecord`. */
  function RecordById(env: Env, snap: Snapshot, storeCode: string, id: string): (r: Option<Record>)
    ensures r.Some? <==> id in StoreAt(snap.stores, KeyFor(env, Data, storeCode)).records
    ensures r.Some? ==> r.value == StoreAt(snap.stores, KeyFor(env, Data, storeCode)).records[id]
  {
    var s := StoreAt(snap.stores, KeyFor(env, Data, storeCode));
    if id in s.records then Some(s.records[id]) else None
  }

  /** `getDataRecordByValue`: the record the unique index maps the value to,
      or null. */
  function RecordByValue(env: Env, snap: Snapshot, storeCode: string, code: string, value: string): (r: Option<Record>)
    ensures var s := StoreAt(snap.stores, KeyFor(env, Data, storeCode));
      r.Some? <==> (code, KeyOfValue(Str(value))) in s.uniqueMap && s.uniqueMap[(code, KeyOfValue(Str(value)))] in s.records
    ensures var s := StoreAt(snap.stores, KeyFor(env, Data, storeCode));
      r.Some? ==> r == RecordById(env, snap, storeCode, s.uniqueMap[(code, KeyOfValue(Str(value)))])
  {
    var s := StoreAt(snap.stores, KeyFor(env, Data, storeCode));
    if (code, KeyOfValue(Str(value))) in s.uniqueMap then RecordById(env, snap, storeCode, s.uniqueMap[(code, KeyOfValue(Str(value)))]) else None
  }

  /** `deletePropertyValue`: unsets a set value; the declaration is not
      consulted and an unset value changes nothing. */
  function DeleteValueIn(env: Env, snap: Snapshot, kind: ObjectType, storeCode: string, id: string,
                         code: string): (r: Snapshot)
    ensures r.dataRecordSequence == snap.dataRecordSequence && r.userSequence == snap.userSequence
    ensures r.userGroupSequence == snap.userGroupSequence
  {
    var project := env.prefixOf(storeCode);
    var k := KeyFor(env, kind, storeCode);
    if kind == Project && HasProjectValue(snap, project, code)
    then snap.(projectValues := snap.projectValues - {(project, code)})
    else if HasRecordValue(StoreAt(snap.stores, k), id, code)
    then snap.(stores := snap.stores[k := snap.stores[k].(values := snap.stores[k].values - {(id, code)})])
    else snap
  }

  /** After a delete, a declared non-file property reads as its default. */
  lemma DeleteThenDefault(env: Env, schema: Schema, snap: Snapshot, kind: ObjectType, storeCode: string,
                          id: string, code: string)
    requires (kind, env.prefixOf(storeCode), code) in schema
    requires !IsAsset(schema[(kind, env.prefixOf(storeCode), code)])
    requires kind == Project ==> !HasRecordValue(StoreAt(snap.stores, KeyFor(env, kind, storeCode)), id, code)
    ensures ValueOf(env, schema, DeleteValueIn(env, snap, kind, storeCode, id, code), kind, storeCode, id, code)
            == Ok(schema[(kind, env.prefixOf(storeCode), code)].default)
  {
  }

  /** Deleting a value that is not set changes nothing. */
  lemma DeleteUnsetIsNoop(env: Env, snap: Snapshot, kind: ObjectType, storeCode: string, id: string, code: string)
    requires !(kind == Project && HasProjectValue(snap, env.prefixOf(storeCode), code))
    requires !HasRecordValue(StoreAt(snap.stores, KeyFor(env, kind, storeCode)), id, code)
    ensures DeleteValueIn(env, snap, kind, storeCode, id, code) == snap
  {
  }

  /** A property write keeps the invariant: it touches values, the unique
      index and project values, never records or groups. */
  lemma SetValueKeepsConsistent(env: Env, schema: Schema, snap: Snapshot, kind: ObjectType, storeCode: string,
                                id: string, code: string, value: Value)
    requires Consistent(snap)
    ensures Consistent(SetValueIn(env, schema, snap, kind, storeCode, id, code, value).0)
  {
    var project := env.prefixOf(storeCode);
    var k := KeyFor(env, kind, storeCode);
    if value != Null && (kind, project, code) in schema {
      var prop := schema[(kind, project, code)];
      if !(prop.propType == "unique" && (code, KeyOfValue(value)) in StoreAt(snap.stores, k).uniqueMap)
         && Stored(env, prop, kind, code, value).Some?
      {
        var v := Stored(env, prop, kind, code, value).value;
        var s := StoreAt(snap.stores, k);
        var claimed :=
          if prop.propType != "unique" then snap
          else if kind == Project then snap.(projectValues := snap.projectValues[(project, code) := Str(id)])
          else snap.(stores := snap.stores[k := s.(uniqueMap := s.uniqueMap[(code, KeyOfValue(value)) := id])]);
        if prop.propType == "unique" && kind != Project {
          SameShapeKeepsConsistent(snap, k, s.(uniqueMap := s.uniqueMap[(code, KeyOfValue(value)) := id]));
        }
        assert Consistent(claimed);
        if kind != Project {
          var c := StoreAt(claimed.stores, k);
          SameShapeKeepsConsistent(claimed, k, c.(values := c.values[(id, code) := v]));
        }
      }
    }
  }

  lemma DeleteValueKeepsConsistent(env: Env, snap: Snapshot, kind: ObjectType, storeCode: string,
                                   id: string, code: string)
    requires Consistent(snap)
    ensures Consistent(DeleteValueIn(env, snap, kind, storeCode, id, code))
  {
    var k := KeyFor(env, kind, storeCode);
    if !(kind == Project && HasProjectValue(snap, env.prefixOf(storeCode), code))
       && HasRecordValue(StoreAt(snap.stores, k), id, code)
    {
      SameShapeKeepsConsistent(snap, k, snap.stores[k].(values := snap.stores[k].values - {(id, code)}));
    }
  }

  // ---------------------------------------------------------------------------
  // Users, groups and references keep the invariant

  /** Editing one user record in place (its id and kind kept) keeps the
      invariant: a store holding a user holds no data records, so its tree
      is empty. */
  lemma UserEditKeepsConsistent(snap: Snapshot, k: StoreKey, id: string, s: Store)
    requires Consistent(snap)
    requires IsUser(StoreAt(snap.stores, k), id) && IsUser(s, id) && s.records[id].id == id
    requires s.records == StoreAt(snap.stores, k).records[id := s.records[id]]
    requires s.groups == StoreAt(snap.stores, k).groups
    ensures Consistent(snap.(stores := snap.stores[k := s]))
  {
    var old_ := StoreAt(snap.stores, k);
    ConsistentStoreAt(snap, k);
    assert RecordFits(k.kind, id, old_.records[id], snap.dataRecordSequence, snap.userSequence);
    forall x | x in s.records
      ensures RecordFits(k.kind, x, s.records[x], snap.dataRecordSequence, snap.userSequence)
    {
      if x != id {
        assert RecordFits(k.kind, x, old_.records[x], snap.dataRecordSequence, snap.userSequence);
      }
    }
    StoreUpdateKeepsConsistent(snap, k, s);
  }

  /** Renaming a group keeps its id, so the invariant holds. */
  lemma RenameKeepsConsistent(snap: Snapshot, k: StoreKey, gid: string, name: string)
    requires Consistent(snap)
    ensures Consistent(snap.(stores := snap.stores[k := RenameGroup(StoreAt(snap.stores, k), gid, name)]))
  {
    ConsistentStoreAt(snap, k);
    SameRecordsSameTree(StoreAt(snap.stores, k), RenameGroup(StoreAt(snap.stores, k), gid, name));
  }

  lemma SameRecordsTrans(a: Stores, b: Stores, c: Stores)
    requires SameRecords(a, b) && SameRecords(b, c)
    ensures SameRecords(a, c)
  {
  }

  lemma PutKeepsRecords(st: Stores, k: StoreKey, id: string, code: string, x: string)
    ensures SameRecords(st, Put(st, k, id, code, x))
  {
  }

  lemma DropKeepsRecords(st: Stores, k: StoreKey, id: string, code: string)
    ensures SameRecords(st, Drop(st, k, id, code))
  {
  }

  lemma RemoveKeepsRecords(st: Stores, k: StoreKey, id: string, code: string, x: string)
    ensures SameRecords(st, Remove(st, k, id, code, x))
  {
  }

  lemma AddInverseKeepsRecords(prefixOf: string -> string, defs: map<string, RefDef>, st: Stores,
                               o: ObjRef, acting: ObjRef, code: string)
    requires HasEntry(prefixOf, st, acting, code)
    ensures SameRecords(st, AddInverse(prefixOf, defs, st, o, acting, code).0)
  {
    var ko := KeyOf(prefixOf, o);
    if Validate(defs, o.kind, o.storeCode, o.id, code, [acting]).Pass? {
      var st1 := if Resets(defs, code, o.kind, o.storeCode) then Drop(st, ko, o.id, code) else st;
      DropKeepsRecords(st, ko, o.id, code);
      PutKeepsRecords(st1, ko, o.id, code, acting.id);
      SameRecordsTrans(st, st1, Put(st1, ko, o.id, code, acting.id));
    }
  }

  lemma {:induction false} AddEachKeepsRecords(prefixOf: string -> string, defs: map<string, RefDef>, st: Stores,
                                               acting: ObjRef, code: string, objects: seq<ObjRef>)
    ensures SameRecords(st, AddEach(prefixOf, defs, st, acting, code, objects).0)
    decreases |objects|
  {
    if objects != [] {
      var o := objects[0];
      var st1 := Put(st, KeyOf(prefixOf, acting), acting.id, code, o.id);
      PutKeepsRecords(st, KeyOf(prefixOf, acting), acting.id, code, o.id);
      if HasEntry(prefixOf, st1, o, code) {
        AddEachKeepsRecords(prefixOf, defs, st1, acting, code, objects[1..]);
        SameRecordsTrans(st, st1, AddEach(prefixOf, defs, st1, acting, code, objects[1..]).0);
      } else {
        var inv := AddInverse(prefixOf, defs, st1, o, acting, code);
        AddInverseKeepsRecords(prefixOf, defs, st1, o, acting, code);
        SameRecordsTrans(st, st1, inv.0);
        if inv.1.Pass? {
          AddEachKeepsRecords(prefixOf, defs, inv.0, acting, code, objects[1..]);
          SameRecordsTrans(st, inv.0, AddEach(prefixOf, defs, inv.0, acting, code, objects[1..]).0);
        }
      }
    }
  }

  /** `addReference` writes only reference entries. */
  lemma AddReferenceKeepsConsistent(env: Env, defs: map<string, RefDef>, snap: Snapshot,
                                    acting: ObjRef, code: string, objects: seq<ObjRef>)
    requires Consistent(snap)
    ensures Consistent(snap.(stores := Linking.AddReference(env.prefixOf, defs, snap.stores, acting, code, objects).0))
  {
    var ka := KeyOf(env.prefixOf, acting);
    DropKeepsRecords(snap.stores, ka, acting.id, code);
    var st1 := if Resets(defs, code, acting.kind, acting.storeCode) then Drop(snap.stores, ka, acting.id, code) else snap.stores;
    AddEachKeepsRecords(env.prefixOf, defs, st1, acting, code, objects);
    var r := Linking.AddReference(env.prefixOf, defs, snap.stores, acting, code, objects).0;
    SameRecordsTrans(snap.stores, st1, r);
    SameRecordsKeepConsistent(snap, r, snap.projectValues);
  }

  lemma {:induction false} DeleteEachKeepsRecords(prefixOf: string -> string, st: Stores, acting: ObjRef,
                                                  code: string, objects: seq<ObjRef>)
    ensures SameRecords(st, DeleteEach(prefixOf, st, acting, code, objects))
    decreases |objects|
  {
    if objects != [] {
      var o := objects[0];
      var ko := KeyOf(prefixOf, o);
      var st1 := Remove(st, KeyOf(prefixOf, acting), acting.id, code, o.id);
      RemoveKeepsRecords(st, KeyOf(prefixOf, acting), acting.id, code, o.id);
      RemoveKeepsRecords(st1, ko, o.id, code, acting.id);
      var st2 := if Links(st1, ko, o.id, code, acting.id) then Remove(st1, ko, o.id, code, acting.id) else st1;
      SameRecordsTrans(st, st1, st2);
      DeleteEachKeepsRecords(prefixOf, st2, acting, code, objects[1..]);
      SameRecordsTrans(st, st2, DeleteEach(prefixOf, st2, acting, code, objects[1..]));
    }
  }

}
