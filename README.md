# Perspective simulator record store, in Dafny

This project models the in-memory record store of the Perspective
simulator (squizlabs/perspective-simulator). It also models the two small
legacy registries that the store grew out of. The PHP sources are
src/SimulatorHandler.php, src/DataRecord.php and src/StorageFactory.php.

- **`SimulatorHandler` (mixed).** The engine is the class
  `Engine.Simulator`. Its fields are the three id counters
  (`dataRecordSequence`, `userSequence`, `userGroupSequence`), the stores,
  the project property values, the declared property schema and the
  reference definitions. Its methods update those fields step by step, as
  the PHP methods update `$this->stores`.
  - Each method is proved against a function on values (modules
    `EngineSpec`, `RecordStore`, `Linking`): its `ensures` ties the new state
    and the result to that function of the old state.
  - The properties the source promises are proved as lemmas about those
    functions.
  - Every state-changing method keeps the engine invariant `Valid()`. The
    invariant says:
    - the parent/child tree is well formed (depth is one more than the
      parent's, and the parent lists the child);
    - every record and group is stored under its own id;
    - data records sit only in data stores and user records only in user
      stores;
    - every id was minted by its kind's counter, so the next id is fresh.
  - The pure parts are datatypes and functions:
    - `getReferenceDefinition`, `getReferenceSide` and `validateReference`
      are in module `ReferenceRules`;
    - `getChildren` and `getParents` are functions in module `RecordStore`,
      with `getChildren` also written as a recursive method with a loop.
  - The class's read-only getters (`GetDataRecord`, `GetDataRecordByValue`,
    `GetUser`, `GetUserByUsername`, `GetGroup`, `GetUserGroups`,
    `GetGroupMembers`, `GetPropertyValue`, `GetParents`, `GetReference`)
    return the specification function of the same operation applied to the
    current fields; the rows below name those functions.
- **`DataRecord` (imperative).** The class `LegacyRecord.DataRecord` has a
  property map and a reference map (code to ordered id set). The store's
  unique index is a field of `Registry.DataStore`.
- **`StorageFactory` (imperative).** The class `Registry.StorageFactory`
  holds four maps: data stores, user stores, data properties and user
  properties.

PHP nested arrays are modelled as flat maps:

- `stores[kind][project][storeCode]` becomes a map from
  `StoreKey(kind, project, storeCode)`. A store that was never created reads
  as the empty store, as PHP's `isset` on a missing path does.
- In a store, `records[id][code]` becomes `values[(id, code)]`, and
  `records[id]['references'][code]` becomes `references[(id, code)]`.
- PHP arrays used as sets (`$a[$id] = true`, `unset`, `array_keys`) are
  ordered sequences without duplicates (module `OrderedSets`).
- Ids are `"<counter>.1"`. Module `Ids` proves that the counter can be read
  back from an id, so a fresh counter value gives a fresh id.

The engine depends on things it does not define. These become fields of the
`EngineSpec.Env` value:

- the project prefix of a store code (`Bootstrap::getProjectPrefix`);
- the qualified class name of a custom record type;
- the URL synthesised for an unset image or file property;
- the upload check of an image or file value.

The read- and write-enabled switches are boolean parameters. `save` produces
a `Snapshot` value. The constructor merges such a value into an empty engine,
keeping what is already present.

Notes on where the model follows the code:

- **Second 1:1 claimant.** `validateReference` consults only the
  definition, never the stored references. So under a 1:1 definition, a
  second record may claim an object that is already linked. The object then
  keeps naming its first partner, because the inverse write is guarded (see
  `Linking.OneToOneKeepsEarlierPartner`). The model follows the code here,
  not the intent of a 1:1 cardinality.
- **Own unique value.** `setPropertyValue` refuses a unique value that is
  already in the index, even when this same record holds it.
- **Unique index keys.** The unique index is a PHP array indexed by the
  value, so PHP's key cast applies (module `ArrayKeys`, for the null,
  string, integer and boolean values the model has): `5` and `"5"` are
  one key, and so are `true`, `1` and `"1"`. The model keys the index by
  that cast, so `getDataRecordByValue(S, p, '5')` finds the record that
  claimed `5`, and a later `"5"` is refused (`EngineSpec.ClaimedKeyRefused`).
- **Project unique values.** For the project kind, the claim is written to
  the project's own slot, while the check reads the store's `uniqueMap`,
  which is never written for projects; so a project's unique value is
  never refused as a duplicate.
- **Username index.** `setUsername` does not update the username index
  (`RecordStore.SetUsernameLeavesIndex`).
- **Name setters.** `setUserFirstName` and `setUserLastName` write
  `properties['__first-name__']` and `['__last-name__']` of the user record.
  They leave the `firstName` and `lastName` fields as they were created.
- **Depth in `getParents`.** Each link of the `getParents` result carries
  the depth of the record whose parent it names, not the parent's own
  depth.
- **Negative depth.** A negative depth never counts down to 0, so it acts
  as no bound (`RecordStore.ChildrenNegativeDepth`,
  `RecordStore.ParentsNegativeDepth`).

## Model

| member | source | states |
|---|---|---|
| Engine.KeepExisting | src/SimulatorHandler.php:99-113 | the merged stores hold every existing and every saved key; an existing entry is kept and a saved one fills a missing key |
| Engine.MergeFirstWins | src/SimulatorHandler.php:99-113 | the constructor's loop over saved stores computes exactly the first-wins merge |
| Engine.MergeIntoEmpty | src/SimulatorHandler.php:99-113 | merging saved data into an empty engine restores it exactly |
| Engine.MergeIdempotent | src/SimulatorHandler.php:99-113 | merging the same saved data twice changes nothing the second time |
| Engine.Simulator.constructor | src/SimulatorHandler.php:88-116 | with reading enabled and saved data, the counters and stores are the saved ones; otherwise all counters are 0 and there are no stores; the invariant holds |
| Engine.Simulator.Save | src/SimulatorHandler.php:362-374 | with writing enabled, it produces the counters and stores, which satisfy the invariant; otherwise nothing |
| Engine.Simulator.DeclareProperty | src/SimulatorHandler.php:223-286 | a property declaration read by `loadProperties` replaces an earlier one for the same code; nothing else changes |
| Engine.Simulator.AddDefaultUserProperties | src/SimulatorHandler.php:148-156 | `load` declares `__first-name__` and `__last-name__` as text with a null default |
| Engine.Simulator.DeclareStore | src/SimulatorHandler.php:297-354 | a store seen by `loadStores` is created empty unless it already exists, so saved data wins; the invariant is kept |
| Engine.Simulator.DeclareReference | src/SimulatorHandler.php:314-321 | the first definition loaded for a reference code is kept |
| EngineSpec.CreateDataRecordIn | src/SimulatorHandler.php:1217-1253 | null, with nothing changed, exactly when a given parent is not in the store; otherwise only the data counter advances, by one, and the record gets the id minted from it, which was not in the store |
| EngineSpec.CreatedRecordDepth | src/SimulatorHandler.php:1231-1249 | the new record has depth 1 without a parent and the parent's depth plus 1 with one, has no children, and its parent lists it as a child |
| EngineSpec.CreatedIdFreshEverywhere | src/SimulatorHandler.php:1235-1236 | a new data record's id is in no data store of any project before the call: data ids are never reused |
| EngineSpec.CreateDataRecordKeepsConsistent | src/SimulatorHandler.php:1217-1253 | creating a data record keeps the engine invariant |
| Engine.Simulator.CreateDataRecord | src/SimulatorHandler.php:1217-1253 | the new state and result are those of `CreateDataRecordIn`; the invariant is kept |
| Engine.Simulator.InsertDataRecord | src/SimulatorHandler.php:1237-1249 | the writes of `createDataRecord` store the record and update the parent, as `AddDataRecord` says |
| RecordStore.AddDataRecord | src/SimulatorHandler.php:1237-1249 | the new record has the given parent, no children, depth 1 or parent depth plus 1; the parent gains it as a child; only the record map changes |
| RecordStore.AddDataRecordKeepsTree | src/SimulatorHandler.php:1237-1249 | adding a record under a fresh id keeps the depth and parent/child relation well formed |
| EngineSpec.CreateDataRecordInWrites | src/SimulatorHandler.php:1231-1249 | under the invariant, with the parent present, the minted id is fresh in the store, the parent is a data record, and the result is the store with `AddDataRecord` applied and the data counter advanced by one |
| Ids.ParseDecimalOfDecimal | src/SimulatorHandler.php:1236 | reading back PHP's decimal rendering of a counter gives the counter |
| Ids.SequenceOfIdOf | src/SimulatorHandler.php:1236 | the counter an id `"<n>.1"` was minted from can be read back from it |
| Ids.IdOfInjective | src/SimulatorHandler.php:1236 | distinct counter values give distinct ids |
| Ids.NextIdIsFresh | src/SimulatorHandler.php:1235-1236 | an id minted by a counter at n or below differs from the id minted at n + 1 |
| ArrayKeys.KeyOfValue | src/SimulatorHandler.php:1008 | an int indexes its own slot, a bool the slot 0 or 1, and null the empty-string slot |
| ArrayKeys.StringKeyIsInteger | src/SimulatorHandler.php:1008 | a string indexes the slot of integer i exactly when it is PHP's decimal rendering of i and i is a 64-bit integer |
| ArrayKeys.OtherStringsStayStrings | src/SimulatorHandler.php:1008 | a string that renders no 64-bit integer keeps its own string slot |
| ArrayKeys.KeyExamples | src/SimulatorHandler.php:1008 | `"5"` shares the slot of `5`, `"1"` that of `true` and `1`, `"-7"` that of `-7`, while `"05"`, `"-0"` and `"1.1"` stay strings |
| EngineSpec.NextIdsFresh | src/SimulatorHandler.php:1235-1236 | under the invariant, the ids each counter mints next are in no store of its kind |
| EngineSpec.RaiseCounters | src/SimulatorHandler.php:1235 | advancing counters keeps every stored id issued |
| EngineSpec.CreateUserIn | src/SimulatorHandler.php:1307-1326 | only the user counter advances, by one; the user gets the id minted from it and the fixed user type; `getUserByUsername` on its username finds it |
| RecordStore.AddUser | src/SimulatorHandler.php:1311-1322 | `createUser` stores the user record and points its username at it; nothing else in the store changes |
| RecordStore.UsernameFindsNewUser | src/SimulatorHandler.php:1313-1322 | after `createUser` the username finds the new user, so a later user with the same username wins; other usernames find what they found before |
| EngineSpec.CreateUserKeepsConsistent | src/SimulatorHandler.php:1307-1326 | creating a user keeps the engine invariant |
| Engine.Simulator.CreateUser | src/SimulatorHandler.php:1307-1326 | the new state and result are those of `CreateUserIn`; the invariant is kept |
| EngineSpec.CreateGroupIn | src/SimulatorHandler.php:1341-1357 | only the group counter advances, by one; the group gets the id minted from it, and `getGroup` finds it |
| RecordStore.AddGroup | src/SimulatorHandler.php:1343-1354 | `createGroup` stores the group under its id; records and indexes are unchanged |
| EngineSpec.CreateGroupKeepsConsistent | src/SimulatorHandler.php:1341-1357 | creating a group keeps the engine invariant |
| Engine.Simulator.CreateGroup | src/SimulatorHandler.php:1341-1357 | the new state and result are those of `CreateGroupIn`; the invariant is kept |
| EngineSpec.RecordById | src/SimulatorHandler.php:1264-1273 | `getDataRecord` returns the stored record exactly when the id is in the store, else null |
| EngineSpec.RecordByValue | src/SimulatorHandler.php:1285-1295 | `getDataRecordByValue` returns a record exactly when the unique index maps the string's PHP array key to a stored record, and then returns that record |
| RecordStore.UserById | src/SimulatorHandler.php:1408-1417 | `getUser` returns the stored record exactly when the id is present |
| RecordStore.UserByUsername | src/SimulatorHandler.php:1388-1397 | `getUserByUsername` returns a record exactly when the username index points at a stored record, and then returns that record |
| RecordStore.GroupById | src/SimulatorHandler.php:1368-1377 | `getGroup` returns the stored group exactly when the id is present |
| RecordStore.RenameGroup | src/SimulatorHandler.php:787-794 | an existing group gets the new name and keeps its id and parents; an unknown id changes nothing; records are untouched |
| RecordStore.RenameGroupKeepsGroup | src/SimulatorHandler.php:787-794 | after a rename, `getGroup` still finds the group, with its own id and parents and the new name |
| EngineSpec.RenameKeepsConsistent | src/SimulatorHandler.php:787-794 | renaming a group keeps the engine invariant |
| Engine.Simulator.SetGroupName | src/SimulatorHandler.php:787-794 | the user store is updated by `RenameGroup` when the group exists and is otherwise unchanged; the invariant is kept |
| RecordStore.SetUsernameIn | src/SimulatorHandler.php:806-813 | an existing user's username changes and the username index does not; an unknown user changes nothing |
| RecordStore.SetUsernameLeavesIndex | src/SimulatorHandler.php:806-813 | after `setUsername` the old username still finds the renamed user, and the new username finds no one the index did not already know |
| Engine.Simulator.SetUsername | src/SimulatorHandler.php:806-813 | the user store is updated by `SetUsernameIn` when the user exists and is otherwise unchanged; the invariant is kept |
| RecordStore.SetNamePropIn | src/SimulatorHandler.php:825-851 | an existing user's name property is written and its created first and last names stay; an unknown user changes nothing |
| Engine.Simulator.SetUserName | src/SimulatorHandler.php:825-851 | the user store is updated by `SetNamePropIn` for the given key when the user exists; the invariant is kept |
| Engine.Simulator.SetUserFirstName | src/SimulatorHandler.php:825-832 | writes `__first-name__` as `SetNamePropIn` says; the invariant is kept |
| Engine.Simulator.SetUserLastName | src/SimulatorHandler.php:844-851 | writes `__last-name__` as `SetNamePropIn` says; the invariant is kept |
| EngineSpec.UserEditKeepsConsistent | src/SimulatorHandler.php:806-912 | replacing a user record by one with the same id keeps the engine invariant |
| Engine.Simulator.PutUser | src/SimulatorHandler.php:806-912 | the shared write of the user mutators replaces one user record and keeps the invariant |
| RecordStore.UserGroups | src/SimulatorHandler.php:862-871 | `getUserGroups` returns the user's group ids exactly when the user exists, and false otherwise |
| RecordStore.GroupMembers | src/SimulatorHandler.php:762-777 | `getGroupMembers` returns exactly the user records whose groups include the group id |
| RecordStore.AddToGroup | src/SimulatorHandler.php:883-893 | answers true exactly for an existing user, whose group set gains the id; false changes nothing |
| RecordStore.RemoveFromGroup | src/SimulatorHandler.php:903-913 | answers true exactly for an existing user, whose group set loses the id; false changes nothing |
| RecordStore.MembershipRoundTrip | src/SimulatorHandler.php:762-913 | after adding, the user lists the group and the group lists the user; after removing, neither does; other users' memberships are unchanged by either |
| Engine.Simulator.AddUserToGroup | src/SimulatorHandler.php:883-893 | the answer and the new user store are those of `AddToGroup`; the invariant is kept |
| Engine.Simulator.RemoveUserFromGroup | src/SimulatorHandler.php:903-913 | the answer and the new user store are those of `RemoveFromGroup`; the invariant is kept |
| EngineSpec.ValueOf | src/SimulatorHandler.php:926-980 | `getPropertyValue` fails with property-not-found exactly when the code is undeclared for that kind and project |
| EngineSpec.SetValueIn | src/SimulatorHandler.php:994-1028 | a refused `setPropertyValue` changes nothing |
| EngineSpec.SetValueRefusals | src/SimulatorHandler.php:996-1016 | a null value, an undeclared code and a unique value whose PHP array key is already claimed (this record's own included) are each refused with their own error; a declared non-file value that passes these checks is accepted |
| EngineSpec.SetThenGet | src/SimulatorHandler.php:994-1028 | after a successful set, `getPropertyValue` returns the stored value (the prepared upload for an image or file property) |
| EngineSpec.SetUniqueClaims | src/SimulatorHandler.php:1007-1017 | after a successful unique set, `getDataRecordByValue` with any string of the same PHP array key (`"5"` after `5`) returns the record `getDataRecord` returns for the claiming id |
| EngineSpec.ClaimedKeyRefused | src/SimulatorHandler.php:1007-1016 | once a data or user record claims a unique value, any non-null value with the same PHP array key is refused as a duplicate, for every record of the store |
| EngineSpec.SetValueKeepsConsistent | src/SimulatorHandler.php:994-1028 | a property write keeps the engine invariant |
| Engine.Simulator.SetPropertyValue | src/SimulatorHandler.php:994-1028 | the new state and outcome are those of `SetValueIn`, whose duplicate check and claim use the value's PHP array key; the invariant is kept |
| EngineSpec.DeleteValueIn | src/SimulatorHandler.php:1041-1054 | `deletePropertyValue` never changes the counters |
| EngineSpec.DeleteThenDefault | src/SimulatorHandler.php:1041-1054 | after a delete, a declared non-file property reads as its declared default |
| EngineSpec.DeleteUnsetIsNoop | src/SimulatorHandler.php:1046-1052 | deleting a value that is not set changes nothing |
| EngineSpec.DeleteValueKeepsConsistent | src/SimulatorHandler.php:1041-1054 | a delete keeps the engine invariant |
| Engine.Simulator.DeletePropertyValue | src/SimulatorHandler.php:1041-1054 | the new state is that of `DeleteValueIn`; the invariant is kept |
| RecordStore.ChildRankSmaller | src/SimulatorHandler.php:1150-1158 | in a well-formed tree a child has fewer records below it than its parent, so the recursion of `getChildren` ends |
| RecordStore.BranchesFollowKids | src/SimulatorHandler.php:1150-1158 | the loop of `getChildren` yields one entry per child id, in order, each one level below the record |
| RecordStore.BranchesStep | src/SimulatorHandler.php:1149-1159 | one pass of the loop appends the next child's entry, so the built prefix followed by the remaining children's entries is still the whole result |
| RecordStore.ChildrenAreTheChildren | src/SimulatorHandler.php:1133-1162 | the keys of a `getChildren` result are exactly the record's children ids, in order, each at the record's depth plus 1 |
| RecordStore.ChildrenWithinLevels | src/SimulatorHandler.php:1141-1158 | `getChildren` with depth n returns at most n levels |
| RecordStore.ChildrenNegativeDepth | src/SimulatorHandler.php:1141-1158 | a negative depth gives the same result as a null depth |
| Engine.Simulator.GetChildren | src/SimulatorHandler.php:1133-1162 | the recursive method with its loop returns `Children` of the store |
| RecordStore.Parents | src/SimulatorHandler.php:1175-1205 | a non-empty result names the record's parent and carries the record's own depth |
| RecordStore.ParentsReachRoot | src/SimulatorHandler.php:1175-1205 | without a bound, `getParents` returns one link per level above the record |
| RecordStore.ParentsBounded | src/SimulatorHandler.php:1175-1205 | with a bound n, `getParents` stops after n links or at the root, whichever comes first |
| RecordStore.ParentsNegativeDepth | src/SimulatorHandler.php:1182-1199 | a negative depth gives the same result as a null depth |
| ReferenceRules.Normalise | src/SimulatorHandler.php:597-615 | an M:1 definition becomes 1:M with source and target type and code swapped; any other definition is unchanged |
| ReferenceRules.Definition | src/SimulatorHandler.php:597-615 | `getReferenceDefinition` returns the normalised definition exactly when the code is defined |
| ReferenceRules.QualifiedCodeMatches | src/SimulatorHandler.php:720-751 | for a store code `v/p/s`, a side's code qualifies to the same store exactly when it is `s` |
| ReferenceRules.SideOf | src/SimulatorHandler.php:720-751 | `getReferenceSide` answers source exactly when the source side matches (even if the target also does), target exactly when only the target side matches, and otherwise fails with an invalid reference |
| ReferenceRules.NullCodeMatchesAnyStore | src/SimulatorHandler.php:720-751 | a side with a null code matches every store of its class |
| ReferenceRules.Classify | src/SimulatorHandler.php:640-661 | the objects are sorted onto the two sides without loss, and sorting fails exactly when some object is on neither side |
| ReferenceRules.Validate | src/SimulatorHandler.php:631-707 | `validateReference` passes when there is no definition; a pass means the acting record and every object sit on a side |
| ReferenceRules.ClassifySides | src/SimulatorHandler.php:640-661 | the objects are sorted into exactly the source-side ids and the target-side ids, each in list order |
| ReferenceRules.ValidateFromSource | src/SimulatorHandler.php:631-707 | with the acting record on the source side, validation passes exactly when 1:1 has no other source object and one target object, 1:M has no other source object, and the first source object, if any, is the acting record |
| ReferenceRules.ValidateFromTarget | src/SimulatorHandler.php:631-707 | with the acting record on the target side, validation passes exactly when 1:1 has no other target object and one source object, 1:M has exactly one source object, and the first target object, if any, is the acting record |
| ReferenceRules.ValidateCardinality | src/SimulatorHandler.php:631-707 | for any object list and a defined code, validation passes exactly when the acting record and all objects sit on a side, 1:1 has no object on the acting side and one on the other, 1:M has no other source object when acting from the source and exactly one source object when acting from the target, and the first object on the acting side, if any, is the acting record |
| ReferenceRules.OneToOneTakesOneOpposite | src/SimulatorHandler.php:664-676 | under 1:1 a passing validation has exactly one object, on the side opposite the acting record |
| ReferenceRules.ValidateOpposite | src/SimulatorHandler.php:631-707 | with every object on the other side, validation passes exactly when 1:1 has one object and 1:M acting from the target side has one object |
| ReferenceRules.ValidateRejectsForeignFirst | src/SimulatorHandler.php:684-693 | a list of any length whose first object sits on the acting record's own side and carries another id is refused |
| Linking.AddInverse | src/SimulatorHandler.php:529-541 | the nested call on the object adds the acting record's id to the object's entry when validation passes, and changes nothing when it fails |
| Linking.AddReference | src/SimulatorHandler.php:488-545 | a refused validation changes nothing and reports the refusal |
| Linking.AddEachAccumulates | src/SimulatorHandler.php:525-543 | while the objects are in other stores and their inverse validations pass, the acting record's entry ends as its earlier ids followed by the new ones, without duplicates |
| Linking.OppositeSidesAdd | src/SimulatorHandler.php:499-541 | with every object on the other side and validation passing, `addReference` succeeds; the acting record's entry is reset first under 1:1 and under 1:M from the target side, and otherwise accumulates |
| Linking.ManyToManyAccumulates | src/SimulatorHandler.php:499-541 | under M:M, from either side, the earlier ids are kept and the new ones appended |
| Linking.OneToOneLinksBothWays | src/SimulatorHandler.php:499-541 | under 1:1, linking an object that holds no link leaves the acting record naming only the object and the object naming only the acting record |
| Linking.OneToOneKeepsEarlierPartner | src/SimulatorHandler.php:529-541 | under 1:1, an object that already holds a link gets no inverse write and keeps its earlier partner |
| EngineSpec.AddReferenceKeepsConsistent | src/SimulatorHandler.php:488-545 | `addReference` writes only reference entries, so it keeps the engine invariant |
| Engine.Simulator.LinkBack | src/SimulatorHandler.php:529-541 | the inverse write computes `AddInverse` |
| Engine.Simulator.AddReference | src/SimulatorHandler.php:488-545 | the loop's new stores and outcome are those of `Linking.AddReference`; the invariant is kept |
| Engine.Simulator.LinkEach | src/SimulatorHandler.php:525-543 | the loop's new stores and outcome are those of `AddEach`: each object is linked in turn, and a refused inverse write stops the loop |
| Engine.Simulator.LinkOne | src/SimulatorHandler.php:526-541 | one pass inserts the object's id into the acting record's set and, when the object holds no entry for the code, makes the inverse write of `AddInverse` |
| Linking.AddEachStep | src/SimulatorHandler.php:525-543 | linking the objects from position i is one pass for the i-th object followed by linking from i + 1, unless that pass is refused |
| EngineSpec.AddEachKeepsRecords | src/SimulatorHandler.php:525-543 | linking objects leaves every store's records and groups unchanged |
| Linking.DeleteUnlinksBothWays | src/SimulatorHandler.php:559-585 | after the corrected `deleteReference`, the acting record names none of the objects and none of them names the acting record |
| Linking.DeleteEachNeverLinks | src/SimulatorHandler.php:559-585 | deleting references never creates a link |
| EngineSpec.DeleteEachKeepsRecords | src/SimulatorHandler.php:559-585 | deleting references leaves every store's records and groups unchanged |
| Engine.Simulator.DeleteReference | src/SimulatorHandler.php:559-585 | the new stores are those of the corrected delete; the invariant is kept |
| Engine.Simulator.UnlinkEach | src/SimulatorHandler.php:567-583 | the loop's new stores are those of `DeleteEach` |
| Engine.Simulator.UnlinkOne | src/SimulatorHandler.php:568-582 | one pass removes the object's id from the acting record's set and, where the object's set names the acting record, removes that name too |
| Linking.UndefinedCodeGuardStaysOpen | src/SimulatorHandler.php:488-543 | for a code with no definition, `addReference` passes, and afterwards `getReference` still reads null for the acting record and for every object |
| Linking.ReferenceShape | src/SimulatorHandler.php:387-474 | `getReference` is null exactly when there is no entry or no definition, the single id for a one-element entry, and the list otherwise |
| Findings.DeleteReferenceAsWritten | src/SimulatorHandler.php:559-585 | as written, a non-empty object list always fails, after one misdirected unset |
| Findings.DeleteAsWrittenKeepsLink | src/SimulatorHandler.php:567-572 | as written, the acting record's link to an object with another id survives; the corrected delete removes it |
| Findings.SetGroupNameAsWritten | src/SimulatorHandler.php:787-794 | as written, an existing group's slot becomes the bare name |
| Findings.SetGroupNameAsWrittenLosesGroup | src/SimulatorHandler.php:787-794 | as written, the slot no longer holds a group; the corrected rename keeps the group with the new name |
| LegacyRecord.DataRecord.constructor | src/DataRecord.php:14-22 | a new record has its store, id and project, and empty property and reference maps |
| LegacyRecord.DataRecord.GetValue | src/DataRecord.php:36-48 | fails exactly for an undeclared code; otherwise it returns the stored value when set, else the declared default |
| LegacyRecord.DataRecord.SetValue | src/DataRecord.php:51-70 | fails, changing nothing, for an undeclared code or a unique value the store already maps; otherwise it claims a unique value for this record, then stores the value, which `getValue` then returns |
| LegacyRecord.DataRecord.GetReference | src/DataRecord.php:79-93 | null exactly when the code was never added, the single id exactly for a one-element set, and the list otherwise |
| LegacyRecord.DataRecord.AddReference | src/DataRecord.php:95-112 | the set for the code becomes the set insertion of the objects' ids into its earlier contents; a single object counts as a one-element list |
| LegacyRecord.InsertEach | src/DataRecord.php:108-111 | the loop yields the set insertion of the ids, in order, into the earlier entry |
| LegacyRecord.DataRecord.SetReference | src/DataRecord.php:114-124 | has the same effect as `addReference`: earlier ids are not cleared |
| LegacyRecord.AddReferenceIdempotent | src/DataRecord.php:95-112 | adding the same objects twice gives what adding them once gives |
| OrderedSets.Insert | src/DataRecord.php:110 | `$a[$x] = true` holds exactly the old keys and x, appends x only when absent, and keeps keys distinct |
| OrderedSets.InsertAllContents | src/DataRecord.php:108-111 | inserting a list keeps the old keys in front, in order, holds exactly the old and new keys, and adds no duplicate |
| OrderedSets.InsertAllIdempotent | src/DataRecord.php:108-111 | set insertion is idempotent |
| OrderedSets.Without | src/SimulatorHandler.php:907 | `unset($a[$x])` leaves exactly the other keys |
| Registry.DataStore.UniqueHolder | src/DataRecord.php:59-62 | the store's unique lookup returns the holder exactly when the index maps the value |
| Registry.DataStore.ClaimUnique | src/DataRecord.php:64 | the index maps the value to the claiming record afterwards |
| Registry.StorageFactory.constructor | src/StorageFactory.php:7-11 | all four registries start empty |
| Registry.StorageFactory.CreateDataStore | src/StorageFactory.php:13-18 | a data store is registered only when its code is absent, so a repeated create keeps the original; user stores and properties are unchanged |
| Registry.StorageFactory.CreateUserStore | src/StorageFactory.php:20-25 | a user store is registered only when its code is absent; data stores and properties are unchanged |
| Registry.StorageFactory.CreateDataRecordProperty | src/StorageFactory.php:27-33 | the definition `{type, default}` replaces any earlier one for the code, so the last wins; the user namespace is unchanged |
| Registry.StorageFactory.CreateUserProperty | src/StorageFactory.php:35-41 | the definition replaces any earlier one; the data namespace is unchanged |
| Registry.StorageFactory.GetDataRecordProperty | src/StorageFactory.php:43-46 | null exactly for an undeclared code, else the stored definition |
| Registry.StorageFactory.GetUserProperty | src/StorageFactory.php:48-51 | null exactly for an undeclared code, else the stored definition |
| Registry.StorageFactory.GetDataStore | src/StorageFactory.php:59-66 | fails exactly for an unregistered code, else returns the registered store |
| Registry.StorageFactory.GetUserStore | src/StorageFactory.php:68-75 | fails exactly for an unregistered code, else returns the registered store |

## Left out

- File input and output: reading and writing `saved.json`, the directory scans of `loadProperties` and `loadStores`, and `DataRecord::save` / `DataRecord::load`. The saved data is a `Snapshot` value, and each parsed property, store or reference file is one call to `DeclareProperty`, `DeclareStore` or `DeclareReference`.
- The namespace arithmetic of `loadProperties` and `loadStores` (turning a prefix and a file name into a lower-cased code). It is string work on directory listings; the declarations take the finished codes.
- Composer dependency walking and the dynamic class creation of `load` (`class_alias`, `eval`), and `new $typeClass(...)`. A record carries its type class as a string, and the qualified name of a custom type is the opaque `Env.typeClassOf`.
- Image and file properties. The URL synthesised by directory listing is the opaque `Env.assetUrl`. `prepareFileImagePropertyValue` (its upload move and pattern check) is the opaque `Env.prepareAsset`, where none means it throws.
- The wrapper objects that addReference and deleteReference call (`$object->getReference`, `$object->addReference`, the store-namespace strings). The nested call is a direct operation on the other record's entry, and the object's `getReference` being null is read as the object holding no entry for the code.
- The record details that `getReference` attaches, and its store scan. `$referenceObjectType` is undefined there when the definition's code is not null. Only the null / single / list shape is modelled.
- The singleton accessor `getSimulator`, authentication, the HTTP router, the CLI commands, the file-system helpers, the object wrapper classes and the test bootstrap. None of them is part of the record store.
- Engine.Simulator.AddReference: does not model the stray write `records[id][code] = []` that `addReference` makes when the acting record has no entry. Only the `references` map is modelled, as the entry it evidently means to create.
- The partial record that PHP autovivifies when a property value or reference is written for an id that has no record. Values and references are kept apart from the records, keyed by (id, code), so such writes do not create a record.
- Engine.Simulator.CreateUser: ignores the type argument, as the code does. Its groups argument is read as the KEY set of PHP's `groups` array, in the `[groupid => true]` form that `addUserToGroup` writes (src/SimulatorHandler.php:887). The source stores the argument unchanged (line 1317), and `getUserGroups` (866) and `getGroupMembers` (769) read it through `array_keys`. So a PHP list argument such as `['1.1']` reads back as its positions: `getUserGroups` returns `[0]` and `getGroupMembers(S, '1.1')` does not list the user. The model, given `['1.1']`, returns `['1.1']` and lists the user. EngineSpec.CreateUserIn and RecordStore.AddUser share this reading.
- Engine.Simulator.DeleteReference: models the evident intent. It removes each object's id from the acting record's set, and removes the acting record's id from the object's set when that set names it. As written, the nested delete is guarded by the object's reference reading null, which would make it a no-op; the model does not copy that guard.
- `validateReference` throws PHP exceptions; the model returns `Fail` with an error value. The same holds for every other throwing operation.
- RecordStore.GroupMembers: membership is exact string equality. PHP's `in_array` at src/SimulatorHandler.php:770 compares loosely, so two numeric strings are compared as numbers: a user in group `1.10` is also listed by `getGroupMembers(S, '1.1')`. PHP's numeric-string grammar and float comparison are not modelled.
- Engine.Simulator.GetGroupMembers: returns `RecordStore.GroupMembers`, so it has the same exact-equality gap as the line above.
- Linking.AddInverse: the guard of the nested call is read as "the object holds no entry for the code". PHP's guard is the object's `getReference(...) === null` (src/SimulatorHandler.php:529), and `getReference` is also null when the code has no definition (lines 393-397). For such a code, validation passes on both sides, and after the writes both sides still read null (`Linking.UndefinedCodeGuardStaysOpen`). So in the source each nested `addReference` would call back again, and the mutual calls plausibly never end. The model stops after the inverse write and returns Pass.
- Engine.Simulator.SetUsername, Engine.Simulator.SetUserFirstName, Engine.Simulator.SetUserLastName, Engine.Simulator.AddUserToGroup, Engine.Simulator.RemoveUserFromGroup: modelled as instance methods that update the store. As written (src/SimulatorHandler.php:806-913) they are declared `static` and reach the store through `$this`, which a static call does not have, so as written they cannot update the store. The model gives them the behaviour of the instance methods their bodies describe.
- ArrayKeys.KeyOfValue: the value domain `Base.Value` holds null, strings, integers and booleans only. PHP property values can also be floats, and an image or file value is an upload array (src/SimulatorHandler.php:1059-1067). PHP's array-key cast truncates a float to an integer key, so `5.0` would be refused as a unique value after `5`, and `1.5` would share slot 1 with `true` and `"1"`. Floats, arrays and that float-to-integer key conversion are not modelled. The upload array of an image or file property stands as some `Value` that only the opaque `Env.prepareAsset` interprets.
- The legacy `DataStore::getUniqueDataRecord` and `setUniqueDataRecord` are not part of the sources, so `Registry.DataStore` keys its unique index by the value itself, with no PHP key cast.
- Integer widths: the counters are unbounded naturals. PHP integers overflow to floats only beyond 2^63, which the counters do not reach in use.

## Findings

| source | as written | input that shows it | evidently intended | confidence | as-written member | corrected member |
|---|---|---|---|---|---|---|
| src/SimulatorHandler.php:567-572 | the loop assigns the object's id to `$id`, so the unset removes the object's id from the object's own entry; `$namespace` is undefined, so the call on it throws before any inverse delete | a record `1.1` linked to `2.1` under code `c`, then `deleteReference(..., '1.1', 'c', [object 2.1])`: `1.1` still names `2.1` and the call fails | remove each object's id from the acting record's entry, and the acting record's id from the object's entry | high, not executed | Findings.DeleteAsWrittenKeepsLink | Linking.DeleteUnlinksBothWays |
| src/SimulatorHandler.php:790-792 | the group's array slot is overwritten with the new name string | `createGroup(store, 'a', ...)` giving `1.1`, then `setGroupName(store, '1.1', 'b')`: the slot holds the string `b`, losing the group's id and parent groups | set the group's `groupName` field and keep the rest | high, not executed | Findings.SetGroupNameAsWrittenLosesGroup | RecordStore.RenameGroupKeepsGroup |
