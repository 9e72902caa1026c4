/** The `SimulatorHandler` object of SimulatorHandler.php: three id counters,
    the stores, the declared properties and the reference definitions, held
    in fields that its methods update step by step. Each method is proved
    against the value-level function (EngineSpec, RecordStore, Linking) that
    says what it does, and keeps the engine invariant `Valid()`. */
module Engine {
  import opened Base
  import opened Ids
  import opened OrderedSets
  import opened RecordStore
  import opened ReferenceRules
  import opened Linking
  import opened EngineSpec
  import opened ArrayKeys

  /** The constructor's merge of saved stores: an entry already present is
      kept, a missing one is taken from the saved data. */
  function KeepExisting<K, V>(existing: map<K, V>, loaded: map<K, V>): (r: map<K, V>)
    ensures r.Keys == existing.Keys + loaded.Keys
    ensures forall k :: k in existing ==> r[k] == existing[k]
    ensures forall k :: k in loaded && k !in existing ==> r[k] == loaded[k]
  {
    map k | k in existing.Keys + loaded.Keys :: if k in existing then existing[k] else loaded[k]
  }

  /** Merging into nothing restores the saved data exactly. */
  lemma MergeIntoEmpty<K, V>(loaded: map<K, V>)
    ensures KeepExisting(map[], loaded) == loaded
  {
  }

  /** Merging the same data twice changes nothing the second time. */
  lemma MergeIdempotent<K, V>(existing: map<K, V>, loaded: map<K, V>)
    ensures KeepExisting(KeepExisting(existing, loaded), loaded) == KeepExisting(existing, loaded)
  {
  }

  /** The `foreach` over saved stores in the constructor: each saved entry is
      copied unless one is already there. */
  method MergeFirstWins<K, V>(existing: map<K, V>, loaded: map<K, V>) returns (r: map<K, V>)
    ensures r == KeepExisting(existing, loaded)
  {
    r := existing;
    var pending := loaded.Keys;
    while pending != {}
      invariant pending <= loaded.Keys
      invariant r == KeepExisting(existing, map k | k in loaded.Keys - pending :: loaded[k])
      decreases |pending|
    {
      var k :| k in pending;
      if k !in r {
        r := r[k := loaded[k]];
      }
      pending := pending - {k};
    }
    assert loaded == map k | k in loaded.Keys - pending :: loaded[k];
  }

  class Simulator {
    var dataRecordSequence: nat
    var userSequence: nat
    var userGroupSequence: nat
    var stores: Stores
    var projectValues: map<(string, string), Value>
    var properties: Schema
    var references: map<string, RefDef>
    const env: Env

    function State(): Snapshot
      reads this
    {
      Snapshot(dataRecordSequence, userSequence, userGroupSequence, stores, projectValues)
    }

    predicate Valid()
      reads this
    {
      Consistent(State())
    }

    /** `__construct`: empty, or, when reading is enabled and there is saved
        data, the saved counters and the saved stores merged in. */
    constructor(env: Env, readEnabled: bool, saved: Option<Snapshot>)
      requires saved.Some? ==> Consistent(saved.value)
      ensures Valid() && this.env == env
      ensures properties == map[] && references == map[]
      ensures readEnabled && saved.Some? ==> State() == saved.value
      ensures !(readEnabled && saved.Some?) ==> State() == Snapshot(0, 0, 0, map[], map[])
    {
      this.env := env;
      dataRecordSequence := 0;
      userSequence := 0;
      userGroupSequence := 0;
      stores := map[];
      projectValues := map[];
      properties := map[];
      references := map[];
      new;
      if readEnabled && saved.Some? {
        var snap := saved.value;
        dataRecordSequence := snap.dataRecordSequence;
        userSequence := snap.userSequence;
        userGroupSequence := snap.userGroupSequence;
        stores := MergeFirstWins(stores, snap.stores);
        projectValues := MergeFirstWins(projectValues, snap.projectValues);
        MergeIntoEmpty(snap.stores);
        MergeIntoEmpty(snap.projectValues);
      }
    }

    /** `save`: the counters and stores, when writing is enabled. */
    method Save(writeEnabled: bool) returns (written: Option<Snapshot>)
      requires Valid()
      ensures written.Some? <==> writeEnabled
      ensures written.Some? ==> written.value == State() && Consistent(written.value)
    {
      written := if writeEnabled then Some(State()) else None;
    }

    // -------------------------------------------------------------------------
    // Declarations made by `load`

    /** One property file read by `loadProperties`: a later declaration of
        the same code replaces an earlier one. */
    method DeclareProperty(kind: ObjectType, prefix: string, code: string, def: PropDef)
      modifies this
      ensures properties == old(properties)[(kind, prefix, code) := def]
      ensures State() == old(State()) && references == old(references)
    {
      properties := properties[(kind, prefix, code) := def];
    }

    /** The two user properties `load` always declares. */
    method AddDefaultUserProperties(prefix: string)
      modifies this
      ensures properties == old(properties)[(User, prefix, "__first-name__") := PropDef("text", Null)]
                                           [(User, prefix, "__last-name__") := PropDef("text", Null)]
      ensures State() == old(State()) && references == old(references)
    {
      DeclareProperty(User, prefix, "__first-name__", PropDef("text", Null));
      DeclareProperty(User, prefix, "__last-name__", PropDef("text", Null));
    }

    /** One store directory seen by `loadStores`: created empty unless it
        already exists (saved data wins). */
    method DeclareStore(k: StoreKey)
      requires Valid()
      modifies this
      ensures Valid()
      ensures stores == if k in old(stores) then old(stores) else old(stores)[k := EmptyStore]
      ensures State() == old(State()).(stores := stores)
      ensures properties == old(properties) && references == old(references)
    {
      if k !in stores {
        StoreUpdateKeepsConsistent(State(), k, EmptyStore);
        stores := stores[k := EmptyStore];
      }
    }

    /** One reference file seen by `loadStores`: the first definition of a
        code is kept. */
    method DeclareReference(code: string, def: RefDef)
      modifies this
      ensures references == if code in old(references) then old(references) else old(references)[code := def]
      ensures State() == old(State()) && properties == old(properties)
    {
      if code !in references {
        references := references[code := def];
      }
    }

    // -------------------------------------------------------------------------
    // Data records

    /** `createDataRecord`. */
    method CreateDataRecord(storeCode: string, customType: string, parent: Option<string>) returns (r: Option<Record>)
      requires Valid()
      modifies this
      ensures Valid()
      ensures (State(), r) == CreateDataRecordIn(env, old(State()), storeCode, customType, parent)
      ensures properties == old(properties) && references == old(references)
    {
      var k := KeyFor(env, Data, storeCode);
      if parent.Some? && parent.value !in StoreAt(stores, k).records {
        return None;
      }
      ghost var before := State();
      CreateDataRecordInWrites(env, before, storeCode, customType, parent);
      CreateDataRecordKeepsConsistent(env, before, storeCode, customType, parent);
      dataRecordSequence := dataRecordSequence + 1;
      var rid := IdOf(dataRecordSequence);
      InsertDataRecord(k, rid, env.typeClassOf(storeCode, customType), parent);
      r := Some(stores[k].records[rid]);
    }

    /** The writes of `createDataRecord`: the record at depth 1, then, under
        a parent, the parent's new child and the depth added to. */
    method InsertDataRecord(k: StoreKey, rid: string, typeClass: string, parent: Option<string>)
      requires rid !in StoreAt(stores, k).records
      requires parent.Some? ==> IsData(StoreAt(stores, k), parent.value)
      modifies this
      ensures stores == old(stores)[k := AddDataRecord(old(StoreAt(stores, k)), rid, typeClass, parent)]
      ensures State() == old(State()).(stores := stores)
      ensures properties == old(properties) && references == old(references)
    {
      var s := StoreAt(stores, k);
      ghost var s0 := s;
      s := s.(records := s.records[rid := DataRec(rid, typeClass, 1, [], parent)]);
      if parent.Some? {
        var p := parent.value;
        assert p != rid;
        s := s.(records := s.records[p := s.records[p].(children := Insert(s.records[p].children, rid))]);
        s := s.(records := s.records[rid := s.records[rid].(depth := s.records[rid].depth + s.records[p].depth)]);
        assert s.records == AddDataRecord(s0, rid, typeClass, parent).records;
      }
      stores := stores[k := s];
    }

    /** `getDataRecord`. */
    function GetDataRecord(storeCode: string, id: string): (r: Option<Record>)
      reads this
      ensures r == RecordById(env, State(), storeCode, id)
    {
      RecordById(env, State(), storeCode, id)
    }

    /** `getDataRecordByValue`. */
    function GetDataRecordByValue(storeCode: string, code: string, value: string): (r: Option<Record>)
      reads this
      ensures r == RecordByValue(env, State(), storeCode, code, value)
    {
      RecordByValue(env, State(), storeCode, code, value)
    }

    // -------------------------------------------------------------------------
    // Users and groups

    /** `createUser`; the user type argument is ignored. */
    method CreateUser(storeCode: string, username: string, firstName: string, lastName: string,
                      userType: Option<string>, groups: seq<string>) returns (r: Record)
      requires Valid()
      modifies this
      ensures Valid()
      ensures (State(), r) == CreateUserIn(env, old(State()), storeCode, username, firstName, lastName, groups)
      ensures properties == old(properties) && references == old(references)
    {
      CreateUserKeepsConsistent(env, State(), storeCode, username, firstName, lastName, groups);
      userSequence := userSequence + 1;
      var k := KeyFor(env, User, storeCode);
      var rid := IdOf(userSequence);
      var s := StoreAt(stores, k);
      s := s.(records := s.records[rid := UserRec(rid, username, UserTypeClass, groups, firstName, lastName, map[])]);
      s := s.(usernameMap := s.usernameMap[username := rid]);
      stores := stores[k := s];
      r := s.records[rid];
    }

    /** `createGroup`; the group type argument is ignored and the new group
        is returned as `getGroup` finds it. */
    method CreateGroup(storeCode: string, groupName: string, groupType: string, parentGroups: seq<string>)
      returns (r: Group)
      requires Valid()
      modifies this
      ensures Valid()
      ensures (State(), r) == CreateGroupIn(env, old(State()), storeCode, groupName, parentGroups)
      ensures properties == old(properties) && references == old(references)
    {
      CreateGroupKeepsConsistent(env, State(), storeCode, groupName, parentGroups);
      userGroupSequence := userGroupSequence + 1;
      var k := KeyFor(env, User, storeCode);
      var gid := IdOf(userGroupSequence);
      var s := StoreAt(stores, k);
      stores := stores[k := s.(groups := s.groups[gid := Group(gid, groupName, parentGroups)])];
      r := GetGroup(storeCode, gid).value;
    }

    function GetGroup(storeCode: string, gid: string): (r: Option<Group>)
      reads this
      ensures r == GroupById(StoreAt(stores, KeyFor(env, User, storeCode)), gid)
    {
      GroupById(StoreAt(stores, KeyFor(env, User, storeCode)), gid)
    }

    function GetUser(storeCode: string, id: string): (r: Option<Record>)
      reads this
      ensures r == UserById(StoreAt(stores, KeyFor(env, User, storeCode)), id)
    {
      UserById(StoreAt(stores, KeyFor(env, User, storeCode)), id)
    }

    function GetUserByUsername(storeCode: string, username: string): (r: Option<Record>)
      reads this
      ensures r == UserByUsername(StoreAt(stores, KeyFor(env, User, storeCode)), username)
    {
      UserByUsername(StoreAt(stores, KeyFor(env, User, storeCode)), username)
    }

    /** `setGroupName`, renaming the group in place (see RenameGroup). */
    method SetGroupName(storeCode: string, gid: string, name: string)
      requires Valid()
      modifies this
      ensures Valid()
      ensures var k := KeyFor(env, User, storeCode);
        stores == if gid in old(StoreAt(stores, k)).groups
                  then old(stores)[k := RenameGroup(old(StoreAt(stores, k)), gid, name)]
                  else old(stores)
      ensures State() == old(State()).(stores := stores)
      ensures properties == old(properties) && references == old(references)
    {
      var k := KeyFor(env, User, storeCode);
      if k in stores && gid in stores[k].groups {
        RenameKeepsConsistent(State(), k, gid, name);
        var s := stores[k];
        stores := stores[k := s.(groups := s.groups[gid := s.groups[gid].(groupName := name)])];
      }
    }

    /** Replaces user `id` in store `k` by `u`, keeping the invariant. */
    method PutUser(k: StoreKey, id: string, u: Record)
      requires Valid() && IsUser(StoreAt(stores, k), id) && u.UserRec? && u.id == id
      modifies this
      ensures Valid()
      ensures stores == old(stores)[k := old(stores)[k].(records := old(stores)[k].records[id := u])]
      ensures State() == old(State()).(stores := stores)
      ensures properties == old(properties) && references == old(references)
    {
      var s := stores[k];
      s := s.(records := s.records[id := u]);
      UserEditKeepsConsistent(State(), k, id, s);
      stores := stores[k := s];
    }

    /** `setUsername` (as an instance method): changes an existing user's
        username and nothing else; the username index is left alone. */
    method SetUsername(id: string, storeCode: string, username: string)
      requires Valid()
      modifies this
      ensures Valid()
      ensures var k := KeyFor(env, User, storeCode);
        stores == if IsUser(old(StoreAt(stores, k)), id)
                  then old(stores)[k := SetUsernameIn(old(StoreAt(stores, k)), id, username)]
                  else old(stores)
      ensures State() == old(State()).(stores := stores)
      ensures properties == old(properties) && references == old(references)
    {
      var k := KeyFor(env, User, storeCode);
      if IsUser(StoreAt(stores, k), id) {
        PutUser(k, id, stores[k].records[id].(username := username));
      }
    }

    /** `setUserFirstName` / `setUserLastName` (as instance methods), which
        write `properties['__first-name__']` / `['__last-name__']`. */
    method SetUserName(id: string, storeCode: string, key: string, name: string)
      requires Valid()
      modifies this
      ensures Valid()
      ensures var k := KeyFor(env, User, storeCode);
        stores == if IsUser(old(StoreAt(stores, k)), id)
                  then old(stores)[k := SetNamePropIn(old(StoreAt(stores, k)), id, key, name)]
                  else old(stores)
      ensures State() == old(State()).(stores := stores)
      ensures properties == old(properties) && references == old(references)
    {
      var k := KeyFor(env, User, storeCode);
      if IsUser(StoreAt(stores, k), id) {
        var u := stores[k].records[id];
        PutUser(k, id, u.(nameProps := u.nameProps[key := name]));
      }
    }

    method SetUserFirstName(id: string, storeCode: string, firstName: string)
      requires Valid()
      modifies this
      ensures Valid()
      ensures var k := KeyFor(env, User, storeCode);
        stores == if IsUser(old(StoreAt(stores, k)), id)
                  then old(stores)[k := SetNamePropIn(old(StoreAt(stores, k)), id, "__first-name__", firstName)]
                  else old(stores)
      ensures State() == old(State()).(stores := stores)
      ensures properties == old(properties) && references == old(references)
    {
      SetUserName(id, storeCode, "__first-name__", firstName);
    }

    method SetUserLastName(id: string, storeCode: string, lastName: string)
      requires Valid()
      modifies this
      ensures Valid()
      ensures var k := KeyFor(env, User, storeCode);
        stores == if IsUser(old(StoreAt(stores, k)), id)
                  then old(stores)[k := SetNamePropIn(old(StoreAt(stores, k)), id, "__last-name__", lastName)]
                  else old(stores)
      ensures State() == old(State()).(stores := stores)
      ensures properties == old(properties) && references == old(references)
    {
      SetUserName(id, storeCode, "__last-name__", lastName);
    }

    function GetUserGroups(storeCode: string, id: string): (r: Option<seq<string>>)
      reads this
      ensures r == UserGroups(StoreAt(stores, KeyFor(env, User, storeCode)), id)
    {
      UserGroups(StoreAt(stores, KeyFor(env, User, storeCode)), id)
    }

    function GetGroupMembers(storeCode: string, gid: string): (r: map<string, Record>)
      reads this
      ensures r == GroupMembers(StoreAt(stores, KeyFor(env, User, storeCode)), gid)
    {
      GroupMembers(StoreAt(stores, KeyFor(env, User, storeCode)), gid)
    }

    /** `addUserToGroup` (as an instance method). */
    method AddUserToGroup(id: string, storeCode: string, gid: string) returns (added: bool)
      requires Valid()
      modifies this
      ensures Valid()
      ensures var k := KeyFor(env, User, storeCode);
        var after := AddToGroup(old(StoreAt(stores, k)), id, gid);
        && added == after.1
        && stores == if added then old(stores)[k := after.0] else old(stores)
      ensures State() == old(State()).(stores := stores)
      ensures properties == old(properties) && references == old(references)
    {
      var k := KeyFor(env, User, storeCode);
      added := IsUser(StoreAt(stores, k), id);
      if added {
        var u := stores[k].records[id];
        PutUser(k, id, u.(groups := Insert(u.groups, gid)));
      }
    }

    /** `removeUserFromGroup` (as an instance method). */
    method RemoveUserFromGroup(id: string, storeCode: string, gid: string) returns (removed: bool)
      requires Valid()
      modifies this
      ensures Valid()
      ensures var k := KeyFor(env, User, storeCode);
        var after := RemoveFromGroup(old(StoreAt(stores, k)), id, gid);
        && removed == after.1
        && stores == if removed then old(stores)[k := after.0] else old(stores)
      ensures State() == old(State()).(stores := stores)
      ensures properties == old(properties) && references == old(references)
    {
      var k := KeyFor(env, User, storeCode);
      removed := IsUser(StoreAt(stores, k), id);
      if removed {
        var u := stores[k].records[id];
        PutUser(k, id, u.(groups := Without(u.groups, gid)));
      }
    }

    // -------------------------------------------------------------------------
    // Property values

    function GetPropertyValue(kind: ObjectType, storeCode: string, id: string, code: string): (r: Result<Value>)
      reads this
      ensures r == ValueOf(env, properties, State(), kind, storeCode, id, code)
    {
      ValueOf(env, properties, State(), kind, storeCode, id, code)
    }

    /** `setPropertyValue`. */
    method SetPropertyValue(kind: ObjectType, storeCode: string, id: string, code: string, value: Value)
      returns (r: Outcome)
      requires Valid()
      modifies this
      ensures Valid()
      ensures (State(), r) == SetValueIn(env, properties, old(State()), kind, storeCode, id, code, value)
      ensures properties == old(properties) && references == old(references)
    {
      SetValueKeepsConsistent(env, properties, State(), kind, storeCode, id, code, value);
      if value == Null {
        return Fail(NotNullViolation);
      }
      var project := env.prefixOf(storeCode);
      if (kind, project, code) !in properties {
        return Fail(PropertyNotFound);
      }
      var prop := properties[(kind, project, code)];
      var k := KeyFor(env, kind, storeCode);
      var v := value;
      if prop.propType == "unique" {
        if (code, KeyOfValue(value)) in StoreAt(stores, k).uniqueMap {
          return Fail(DuplicateValue);
        }
        if kind == Project {
          projectValues := projectValues[(project, code) := Str(id)];
        } else {
          var s := StoreAt(stores, k);
          stores := stores[k := s.(uniqueMap := s.uniqueMap[(code, KeyOfValue(value)) := id])];
        }
      } else if IsAsset(prop) {
        var prepared := env.prepareAsset(kind, code, value);
        if prepared.None? {
          return Fail(UploadRejected);
        }
        v := prepared.value;
      }
      if kind == Project {
        projectValues := projectValues[(project, code) := v];
      } else {
        var s := StoreAt(stores, k);
        stores := stores[k := s.(values := s.values[(id, code) := v])];
      }
      r := Pass;
    }

    /** `deletePropertyValue`. */
    method DeletePropertyValue(kind: ObjectType, storeCode: string, id: string, code: string)
      requires Valid()
      modifies this
      ensures Valid()
      ensures State() == DeleteValueIn(env, old(State()), kind, storeCode, id, code)
      ensures properties == old(properties) && references == old(references)
    {
      DeleteValueKeepsConsistent(env, State(), kind, storeCode, id, code);
      var project := env.prefixOf(storeCode);
      var k := KeyFor(env, kind, storeCode);
      if kind == Project && HasProjectValue(State(), project, code) {
        projectValues := projectValues - {(project, code)};
      } else if HasRecordValue(StoreAt(stores, k), id, code) {
        stores := stores[k := stores[k].(values := stores[k].values - {(id, code)})];
      }
    }

    // -------------------------------------------------------------------------
    // The record tree

    /** `getChildren`: the recursion and the `foreach` over the children. */
    method GetChildren(kind: ObjectType, storeCode: string, id: string, depth: Option<int>) returns (r: seq<Branch>)
      requires WellFormedTree(StoreAt(stores, KeyFor(env, kind, storeCode)))
      ensures r == Children(StoreAt(stores, KeyFor(env, kind, storeCode)), id, depth)
      decreases Rank(StoreAt(stores, KeyFor(env, kind, storeCode)), id)
    {
      var s := StoreAt(stores, KeyFor(env, kind, storeCode));
      if !IsData(s, id) || depth == Some(0) {
        return [];
      }
      var d := Decrement(depth);
      var kids := s.records[id].children;
      r := [];
      var i := 0;
      while i < |kids|
        invariant 0 <= i <= |kids|
        invariant r + Branches(s, id, kids[i..], d) == Branches(s, id, kids, d)
      {
        var c := kids[i];
        ChildRankSmaller(s, id, c);
        var below: seq<Branch> := [];
        if d != Some(0) {
          below := GetChildren(kind, storeCode, c, d);
        }
        BranchesStep(s, id, kids, i, d, r, below);
        r := r + [Branch(c, s.records[c].depth, below)];
        i := i + 1;
      }
      assert kids[i..] == [];
    }

    /** `getParents`. */
    function GetParents(kind: ObjectType, storeCode: string, id: string, depth: Option<int>): (r: Ancestry)
      requires WellFormedTree(StoreAt(stores, KeyFor(env, kind, storeCode)))
      reads this
      ensures r == Parents(StoreAt(stores, KeyFor(env, kind, storeCode)), id, depth)
    {
      Parents(StoreAt(stores, KeyFor(env, kind, storeCode)), id, depth)
    }

    // -------------------------------------------------------------------------
    // References

    /** `getReference`, up to the record details it attaches. */
    function GetReference(kind: ObjectType, storeCode: string, id: string, code: string): (r: RefShape)
      reads this
      ensures r == ReferenceShape(env.prefixOf, references, stores, ObjRef(kind, storeCode, id), code)
    {
      ReferenceShape(env.prefixOf, references, stores, ObjRef(kind, storeCode, id), code)
    }

    /** The nested `addReference` on the object, with the acting record as its
        one object. */
    method LinkBack(o: ObjRef, acting: ObjRef, code: string) returns (r: Outcome)
      requires HasEntry(env.prefixOf, stores, acting, code)
      modifies this
      ensures (stores, r) == Linking.AddInverse(env.prefixOf, references, old(stores), o, acting, code)
      ensures State() == old(State()).(stores := stores)
      ensures properties == old(properties) && references == old(references)
    {
      r := Validate(references, o.kind, o.storeCode, o.id, code, [acting]);
      if r.Fail? {
        return;
      }
      var ko := KeyOf(env.prefixOf, o);
      if Resets(references, code, o.kind, o.storeCode) && ko in stores {
        stores := stores[ko := stores[ko].(references := stores[ko].references - {(o.id, code)})];
      }
      var s := StoreAt(stores, ko);
      stores := stores[ko := s.(references := s.references[(o.id, code) := Insert(EntryOrEmpty(stores, ko, o.id, code), acting.id)])];
    }

    /** `addReference`. */
    method AddReference(kind: ObjectType, storeCode: string, id: string, code: string, objects: OneOrMany<ObjRef>)
      returns (r: Outcome)
      requires Valid()
      modifies this
      ensures Valid()
      ensures (stores, r) == Linking.AddReference(env.prefixOf, references, old(stores), ObjRef(kind, storeCode, id), code, AsList(objects))
      ensures State() == old(State()).(stores := stores)
      ensures properties == old(properties) && references == old(references)
    {
      var list := AsList(objects);
      var acting := ObjRef(kind, storeCode, id);
      AddReferenceKeepsConsistent(env, references, State(), acting, code, list);
      r := Validate(references, kind, storeCode, id, code, list);
      if r.Fail? {
        return;
      }
      var ka := KeyOf(env.prefixOf, acting);
      if Resets(references, code, kind, storeCode) && ka in stores {
        stores := stores[ka := stores[ka].(references := stores[ka].references - {(id, code)})];
      }
      r := LinkEach(acting, code, list);
    }

    /** The `foreach` of `addReference`. */
    method LinkEach(acting: ObjRef, code: string, list: seq<ObjRef>) returns (r: Outcome)
      modifies this
      ensures (stores, r) == AddEach(env.prefixOf, references, old(stores), acting, code, list)
      ensures State() == old(State()).(stores := stores)
      ensures properties == old(properties) && references == old(references)
    {
      ghost var goal := AddEach(env.prefixOf, references, stores, acting, code, list);
      var i := 0;
      while i < |list|
        invariant 0 <= i <= |list|
        invariant AddEach(env.prefixOf, references, stores, acting, code, list[i..]) == goal
        invariant State() == old(State()).(stores := stores)
        invariant properties == old(properties) && references == old(references)
      {
        AddEachStep(env.prefixOf, references, stores, acting, code, list, i);
        var back := LinkOne(acting, code, list[i]);
        if back.Fail? {
          return back;
        }
        i := i + 1;
      }
      r := Pass;
    }

    /** One pass of the `foreach` of `addReference`: the object's id goes
        into the acting record's set, and, when the object holds no entry
        for the code, the inverse is written. */
    method LinkOne(acting: ObjRef, code: string, o: ObjRef) returns (r: Outcome)
      modifies this
      ensures var st1 := Put(old(stores), KeyOf(env.prefixOf, acting), acting.id, code, o.id);
        (stores, r) == if HasEntry(env.prefixOf, st1, o, code) then (st1, Pass)
                       else Linking.AddInverse(env.prefixOf, references, st1, o, acting, code)
      ensures State() == old(State()).(stores := stores)
      ensures properties == old(properties) && references == old(references)
    {
      var ka := KeyOf(env.prefixOf, acting);
      var s := StoreAt(stores, ka);
      stores := stores[ka := s.(references := s.references[(acting.id, code) := Insert(EntryOrEmpty(stores, ka, acting.id, code), o.id)])];
      r := Pass;
      if !HasEntry(env.prefixOf, stores, o, code) {
        r := LinkBack(o, acting, code);
      }
    }

    /** `deleteReference`, corrected (see DeleteEach). */
    method DeleteReference(kind: ObjectType, storeCode: string, id: string, code: string, objects: OneOrMany<ObjRef>)
      requires Valid()
      modifies this
      ensures Valid()
      ensures stores == DeleteEach(env.prefixOf, old(stores), ObjRef(kind, storeCode, id), code, AsList(objects))
      ensures State() == old(State()).(stores := stores)
      ensures properties == old(properties) && references == old(references)
    {
      var list := AsList(objects);
      var acting := ObjRef(kind, storeCode, id);
      DeleteEachKeepsRecords(env.prefixOf, stores, acting, code, list);
      SameRecordsKeepConsistent(State(), DeleteEach(env.prefixOf, stores, acting, code, list), projectValues);
      UnlinkEach(acting, code, list);
    }

    /** The `foreach` of `deleteReference`. */
    method UnlinkEach(acting: ObjRef, code: string, list: seq<ObjRef>)
      modifies this
      ensures stores == DeleteEach(env.prefixOf, old(stores), acting, code, list)
      ensures State() == old(State()).(stores := stores)
      ensures properties == old(properties) && references == old(references)
    {
      ghost var goal := DeleteEach(env.prefixOf, stores, acting, code, list);
      var i := 0;
      while i < |list|
        invariant 0 <= i <= |list|
        invariant DeleteEach(env.prefixOf, stores, acting, code, list[i..]) == goal
        invariant State() == old(State()).(stores := stores)
        invariant properties == old(properties) && references == old(references)
      {
        assert list[i..][0] == list[i] && list[i..][1..] == list[i + 1..];
        UnlinkOne(acting, code, list[i]);
        i := i + 1;
      }
    }

    /** One pass of the `deleteReference` loop: drop `o` from the acting entry, then the inverse link if present. */
    method UnlinkOne(acting: ObjRef, code: string, o: ObjRef)
      modifies this
      ensures var st1 := Remove(old(stores), KeyOf(env.prefixOf, acting), acting.id, code, o.id);
        var ko := KeyOf(env.prefixOf, o);
        stores == if Links(st1, ko, o.id, code, acting.id) then Remove(st1, ko, o.id, code, acting.id) else st1
      ensures State() == old(State()).(stores := stores)
      ensures properties == old(properties) && references == old(references)
    {
      var id := acting.id;
      var ka := KeyOf(env.prefixOf, acting);
      var ko := KeyOf(env.prefixOf, o);
      if ka in stores && (id, code) in stores[ka].references {
        stores := stores[ka := stores[ka].(references := stores[ka].references[(id, code) := Without(stores[ka].references[(id, code)], o.id)])];
      }
      if Links(stores, ko, o.id, code, id) {
        stores := stores[ko := stores[ko].(references := stores[ko].references[(o.id, code) := Without(stores[ko].references[(o.id, code)], id)])];
      }
    }
  }
}
