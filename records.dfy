/** The contents of one store in SimulatorHandler.php (`$this->stores[kind][project][storeCode]`):
    records, their property values and references, the unique-value index, the
    username index and the user groups; plus the parent/child tree over data
    records and its depth-bounded traversals. */
module RecordStore {
  import opened Base
  import opened OrderedSets
  import opened ArrayKeys

  /** A stored record. Data records carry their tree links; user records their
      account fields, their group ids and the `properties` sub-array that the
      first/last name setters write. */
  datatype Record =
    | DataRec(id: string, typeClass: string, depth: int, children: seq<string>, parent: Option<string>)
    | UserRec(id: string, username: string, typeClass: string, groups: seq<string>,
              firstName: string, lastName: string, nameProps: map<string, string>)

  /** The type tag `createUser` stores whatever type it is given. */
  const UserTypeClass: string := "\\PerspectiveAPI\\Objects\\Types\\User"

  /** A user group; its `type` is always null and is not modelled. */
  datatype Group = Group(groupId: string, groupName: string, parentGroups: seq<string>)

  /** Property values live at `records[id][code]` and reference sets at
      `records[id]['references'][code]`; both are keyed here by (id, code). */
  datatype Store = Store(
    records: map<string, Record>,
    values: map<(string, string), Value>,
    references: map<(string, string), seq<string>>,
    uniqueMap: map<(string, ArrayKey), string>,
    usernameMap: map<string, string>,
    groups: map<string, Group>)

  const EmptyStore: Store := Store(map[], map[], map[], map[], map[], map[])

  /** `[kind][project][storeCode]`. */
  datatype StoreKey = StoreKey(kind: ObjectType, project: string, storeCode: string)

  /** Reading a store that was never created sees an empty one, as PHP's
      nested-array autovivification and `isset` do. */
  function StoreAt(stores: map<StoreKey, Store>, k: StoreKey): Store {
    if k in stores then stores[k] else EmptyStore
  }

  // ---------------------------------------------------------------------------
  // The record tree

  predicate IsData(s: Store, id: string) {
    id in s.records && s.records[id].DataRec?
  }

  /** A record's depth is one more than its parent's, or 1 without a parent,
      and the parent lists it among its children. */
  predicate ParentLinkOk(s: Store, id: string)
    requires IsData(s, id)
  {
    var r := s.records[id];
    && r.depth >= 1
    && match r.parent
       case None => r.depth == 1
       case Some(p) =>
         p in s.records && s.records[p].DataRec? && s.records[p].depth == r.depth - 1 && id in s.records[p].children
  }

  /** Every child exists, names this record as its parent and sits one level
      deeper. */
  predicate ChildLinksOk(s: Store, id: string)
    requires IsData(s, id)
  {
    forall c :: c in s.records[id].children ==>
      c in s.records && s.records[c].DataRec? && s.records[c].parent == Some(id) && s.records[c].depth == s.records[id].depth + 1
  }

  /** The relation `createDataRecord` maintains between parents, children and
      depths. */
  predicate WellFormedTree(s: Store) {
    forall id {:trigger IsData(s, id)} :: id in s.records && IsData(s, id) ==> ParentLinkOk(s, id) && ChildLinksOk(s, id)
  }

  /** The tree relation reads only the records. */
  lemma SameRecordsSameTree(a: Store, b: Store)
    requires WellFormedTree(a) && a.records == b.records
    ensures WellFormedTree(b)
  {
    forall id | id in b.records && IsData(b, id)
      ensures ParentLinkOk(b, id) && ChildLinksOk(b, id)
    {
      assert IsData(a, id);
    }
  }

  /** A store holding only user records has no tree to keep. */
  lemma UsersOnlyTree(s: Store)
    requires forall id :: id in s.records ==> s.records[id].UserRec?
    ensures WellFormedTree(s)
  {
  }

  /** The data records strictly deeper than `d`. */
  function DeeperThan(s: Store, d: int): set<string> {
    set x | x in s.records && s.records[x].DataRec? && s.records[x].depth > d
  }

  /** Termination measure of the downward traversal. */
  function Rank(s: Store, id: string): nat {
    if IsData(s, id) then |DeeperThan(s, s.records[id].depth)| else 0
  }

  lemma ChildRankSmaller(s: Store, id: string, c: string)
    requires WellFormedTree(s) && IsData(s, id) && c in s.records[id].children
    ensures IsData(s, c) && Rank(s, c) < Rank(s, id)
  {
    var below := DeeperThan(s, s.records[c].depth);
    var here := DeeperThan(s, s.records[id].depth);
    assert below <= here;
    assert c in here - below;
    assert here == below + (here - below);
    assert below * (here - below) == {};
  }

  /** One entry of a `getChildren` result: the child's id, its stored depth and
      its own children (empty below the requested depth). */
  datatype Branch = Branch(id: string, depth: int, children: seq<Branch>)

  /** `$depth--` on a nullable depth. */
  function Decrement(depth: Option<int>): Option<int> {
    if depth.Some? then Some(depth.value - 1) else None
  }

  /** `getChildren`: nothing for an unknown record or depth 0; otherwise one
      branch per child, descending while the decremented depth is not 0. A null
      depth never reaches 0 and neither does a negative one. */
  function Children(s: Store, id: string, depth: Option<int>): seq<Branch>
    requires WellFormedTree(s)
    decreases Rank(s, id), 1, 0
  {
    if !IsData(s, id) || depth == Some(0) then []
    else Branches(s, id, s.records[id].children, Decrement(depth))
  }

  /** The `foreach` of `getChildren` over some of the children of `id`. */
  function Branches(s: Store, id: string, kids: seq<string>, depth: Option<int>): (r: seq<Branch>)
    requires WellFormedTree(s) && IsData(s, id)
    requires forall c :: c in kids ==> c in s.records[id].children
    ensures |r| == |kids|
    decreases Rank(s, id), 0, |kids|
  {
    if kids == [] then []
    else
      var c := kids[0];
      ChildRankSmaller(s, id, c);
      [Branch(c, s.records[c].depth, if depth == Some(0) then [] else Children(s, c, depth))]
        + Branches(s, id, kids[1..], depth)
  }

  /** The first branch of a `foreach` over children. */
  lemma BranchesHead(s: Store, id: string, kids: seq<string>, depth: Option<int>)
    requires WellFormedTree(s) && IsData(s, id) && kids != []
    requires forall c :: c in kids ==> c in s.records[id].children
    ensures Branches(s, id, kids, depth)
      == [Branch(kids[0], s.records[kids[0]].depth, if depth == Some(0) then [] else Children(s, kids[0], depth))]
         + Branches(s, id, kids[1..], depth)
  {
    ChildRankSmaller(s, id, kids[0]);
  }

  lemma {:induction false} BranchesFollowKids(s: Store, id: string, kids: seq<string>, depth: Option<int>)
    requires WellFormedTree(s) && IsData(s, id)
    requires forall c :: c in kids ==> c in s.records[id].children
    ensures forall i :: 0 <= i < |kids| ==>
      Branches(s, id, kids, depth)[i].id == kids[i] && Branches(s, id, kids, depth)[i].depth == s.records[id].depth + 1
    decreases |kids|
  {
    if kids != [] {
      BranchesHead(s, id, kids, depth);
      BranchesFollowKids(s, id, kids[1..], depth);
      assert ChildLinksOk(s, id);
      forall i | 1 <= i < |kids|
        ensures Branches(s, id, kids, depth)[i] == Branches(s, id, kids[1..], depth)[i - 1]
      {
      }
    }
  }

  /** One pass of the `foreach` of `getChildren`: appending the branch of
      child i to the branches of the children before it. */
  lemma BranchesStep(s: Store, id: string, kids: seq<string>, i: nat, depth: Option<int>,
                      done: seq<Branch>, below: seq<Branch>)
    requires WellFormedTree(s) && IsData(s, id) && i < |kids|
    requires forall c :: c in kids ==> c in s.records[id].children
    requires below == if depth == Some(0) then [] else Children(s, kids[i], depth)
    requires done + Branches(s, id, kids[i..], depth) == Branches(s, id, kids, depth)
    ensures (done + [Branch(kids[i], s.records[kids[i]].depth, below)]) + Branches(s, id, kids[i + 1..], depth)
      == Branches(s, id, kids, depth)
  {
    var tail := kids[i..];
    assert tail[0] == kids[i] && tail[1..] == kids[i + 1..];
    BranchesHead(s, id, tail, depth);
    var b := Branch(kids[i], s.records[kids[i]].depth, below);
    var rest := Branches(s, id, kids[i + 1..], depth);
    assert Branches(s, id, tail, depth) == [b] + rest;
    assert done + ([b] + rest) == (done + [b]) + rest;
  }


  /** The keys of the result are exactly the record's children, in order, each
      one level below the record. */
  lemma ChildrenAreTheChildren(s: Store, id: string, depth: Option<int>)
    requires WellFormedTree(s) && IsData(s, id) && depth != Some(0)
    ensures |Children(s, id, depth)| == |s.records[id].children|
    ensures forall i :: 0 <= i < |Children(s, id, depth)| ==>
      Children(s, id, depth)[i].id == s.records[id].children[i]
      && Children(s, id, depth)[i].depth == s.records[id].depth + 1
  {
    BranchesFollowKids(s, id, s.records[id].children, Decrement(depth));
  }

  /** A negative depth is never decremented to 0, so it acts as no bound. */
  lemma {:induction false} ChildrenNegativeDepth(s: Store, id: string, n: int)
    requires WellFormedTree(s) && n < 0
    ensures Children(s, id, Some(n)) == Children(s, id, None)
    decreases Rank(s, id), 1, 0
  {
    if IsData(s, id) {
      BranchesNegativeDepth(s, id, s.records[id].children, n - 1);
    }
  }

  lemma {:induction false} BranchesNegativeDepth(s: Store, id: string, kids: seq<string>, n: int)
    requires WellFormedTree(s) && IsData(s, id) && n < 0
    requires forall c :: c in kids ==> c in s.records[id].children
    ensures Branches(s, id, kids, Some(n)) == Branches(s, id, kids, None)
    decreases Rank(s, id), 0, |kids|
  {
    if kids != [] {
      ChildRankSmaller(s, id, kids[0]);
      ChildrenNegativeDepth(s, kids[0], n);
      BranchesNegativeDepth(s, id, kids[1..], n);
    }
  }

  /** No branch of the forest reaches below `n` levels. */
  predicate WithinLevels(bs: seq<Branch>, n: nat)
    decreases n
  {
    forall i :: 0 <= i < |bs| ==> bs[i].children == [] || (n > 1 && WithinLevels(bs[i].children, n - 1))
  }

  /** `getChildren` with depth n returns at most n levels. */
  lemma {:induction false} ChildrenWithinLevels(s: Store, id: string, n: nat)
    requires WellFormedTree(s) && n >= 1
    ensures WithinLevels(Children(s, id, Some(n)), n)
    decreases Rank(s, id), 1, 0
  {
    if IsData(s, id) {
      BranchesWithinLevels(s, id, s.records[id].children, n - 1);
    }
  }

  lemma {:induction false} BranchesWithinLevels(s: Store, id: string, kids: seq<string>, m: nat)
    requires WellFormedTree(s) && IsData(s, id)
    requires forall c :: c in kids ==> c in s.records[id].children
    ensures WithinLevels(Branches(s, id, kids, Some(m)), m + 1)
    decreases Rank(s, id), 0, |kids|
  {
    if kids != [] {
      var c := kids[0];
      ChildRankSmaller(s, id, c);
      if m != 0 {
        ChildrenWithinLevels(s, c, m);
      }
      BranchesWithinLevels(s, id, kids[1..], m);
      var head := Branch(c, s.records[c].depth, if m == 0 then [] else Children(s, c, Some(m)));
      var tail := Branches(s, id, kids[1..], Some(m));
      assert Branches(s, id, kids, Some(m)) == [head] + tail;
      forall i | 0 <= i < |[head] + tail|
        ensures ([head] + tail)[i].children == [] || (m + 1 > 1 && WithinLevels(([head] + tail)[i].children, m))
      {
        if i > 0 {
          assert ([head] + tail)[i] == tail[i - 1];
        }
      }
    }
  }

  /** One link of a `getParents` result. As written, each link carries the
      depth of the record whose parent it names, not the parent's depth. */
  datatype Ancestry = NoParents | ParentLink(parentId: string, depth: int, above: Ancestry)

  function Height(a: Ancestry): nat {
    if a.NoParents? then 0 else 1 + Height(a.above)
  }

  /** `getParents`: nothing for an unknown or parentless record or depth 0;
      otherwise the parent, then its ancestors while the decremented depth is
      not 0. */
  function Parents(s: Store, id: string, depth: Option<int>): (r: Ancestry)
    requires WellFormedTree(s)
    ensures r.ParentLink? ==> IsData(s, id) && Some(r.parentId) == s.records[id].parent && r.depth == s.records[id].depth
    decreases if IsData(s, id) then s.records[id].depth else 0
  {
    if !IsData(s, id) || s.records[id].parent.None? || depth == Some(0) then NoParents
    else
      var p := s.records[id].parent.value;
      var d := Decrement(depth);
      ParentLink(p, s.records[id].depth, if d == Some(0) then NoParents else Parents(s, p, d))
  }

  /** Without a bound, the chain of parents reaches the root: one link per
      level above the record. */
  lemma {:induction false} ParentsReachRoot(s: Store, id: string)
    requires WellFormedTree(s) && IsData(s, id)
    ensures Height(Parents(s, id, None)) == s.records[id].depth - 1
    decreases s.records[id].depth
  {
    if s.records[id].parent.Some? {
      ParentsReachRoot(s, s.records[id].parent.value);
    }
  }

  /** With bound n >= 0 the chain stops after n links or at the root. */
  lemma {:induction false} ParentsBounded(s: Store, id: string, n: nat)
    requires WellFormedTree(s) && IsData(s, id)
    ensures Height(Parents(s, id, Some(n))) == if n < s.records[id].depth - 1 then n else s.records[id].depth - 1
    decreases n
  {
    if s.records[id].parent.Some? {
      assert IsData(s, s.records[id].parent.value);
      if n > 1 {
        ParentsBounded(s, s.records[id].parent.value, n - 1);
      }
    }
  }

  /** A negative bound acts as no bound. */
  lemma {:induction false} ParentsNegativeDepth(s: Store, id: string, n: int)
    requires WellFormedTree(s) && n < 0
    ensures Parents(s, id, Some(n)) == Parents(s, id, None)
    decreases if IsData(s, id) then s.records[id].depth else 0
  {
    if IsData(s, id) && s.records[id].parent.Some? {
      ParentsNegativeDepth(s, s.records[id].parent.value, n - 1);
    }
  }

  // ---------------------------------------------------------------------------
  // Creating records

  /** The record `createDataRecord` stores and the parent update it makes: the
      new record gets depth 1, plus the parent's depth when it has a parent,
      and the parent's children gain its id. */
  function AddDataRecord(s: Store, rid: string, typeClass: string, parent: Option<string>): (r: Store)
    requires rid !in s.records
    requires parent.Some? ==> IsData(s, parent.value)
    ensures IsData(r, rid) && r.records[rid].parent == parent && r.records[rid].children == []
    ensures parent.None? ==> r.records[rid].depth == 1
    ensures parent.Some? ==>
      && r.records[rid].depth == s.records[parent.value].depth + 1
      && IsData(r, parent.value) && rid in r.records[parent.value].children
    ensures r.records.Keys == s.records.Keys + {rid}
    ensures r.values == s.values && r.references == s.references && r.uniqueMap == s.uniqueMap
    ensures r.usernameMap == s.usernameMap && r.groups == s.groups
  {
    match parent
    case None =>
      s.(records := s.records[rid := DataRec(rid, typeClass, 1, [], None)])
    case Some(p) =>
      var pr := s.records[p];
      s.(records := s.records[p := pr.(children := Insert(pr.children, rid))]
                             [rid := DataRec(rid, typeClass, 1 + pr.depth, [], parent)])
  }

  /** Adding a record under a fresh id keeps the tree well formed. */
  lemma AddDataRecordKeepsTree(s: Store, rid: string, typeClass: string, parent: Option<string>)
    requires WellFormedTree(s) && rid !in s.records
    requires parent.Some? ==> IsData(s, parent.value)
    ensures WellFormedTree(AddDataRecord(s, rid, typeClass, parent))
  {
    var r := AddDataRecord(s, rid, typeClass, parent);
    forall id | IsData(r, id)
      ensures ParentLinkOk(r, id) && ChildLinksOk(r, id)
    {
      if id != rid {
        assert IsData(s, id) && ParentLinkOk(s, id) && ChildLinksOk(s, id);
        assert r.records[id].depth == s.records[id].depth;
        assert r.records[id].parent == s.records[id].parent;
        forall c | c in r.records[id].children
          ensures IsData(r, c) && r.records[c].parent == Some(id) && r.records[c].depth == r.records[id].depth + 1
        {
          if c != rid {
            assert c in s.records[id].children;
          }
        }
        if s.records[id].parent.Some? {
          var p := s.records[id].parent.value;
          assert id in r.records[p].children;
        }
      }
    }
  }

  /** `createUser`: the record under `rid`, and the username now points at it,
      replacing any earlier holder. */
  function AddUser(s: Store, rid: string, username: string, firstName: string, lastName: string,
                   groups: seq<string>): (r: Store)
    ensures r.records == s.records[rid := UserRec(rid, username, UserTypeClass, groups, firstName, lastName, map[])]
    ensures r.usernameMap == s.usernameMap[username := rid]
    ensures r.values == s.values && r.references == s.references && r.uniqueMap == s.uniqueMap
    ensures r.groups == s.groups
  {
    s.(records := s.records[rid := UserRec(rid, username, UserTypeClass, groups, firstName, lastName, map[])],
       usernameMap := s.usernameMap[username := rid])
  }

  /** `getUser`. */
  function UserById(s: Store, id: string): (r: Option<Record>)
    ensures r.Some? <==> id in s.records
    ensures r.Some? ==> r.value == s.records[id]
  {
    if id in s.records then Some(s.records[id]) else None
  }

  /** `getUserByUsername`: the user the username index points at, or null. */
  function UserByUsername(s: Store, username: string): (r: Option<Record>)
    ensures r.Some? <==> username in s.usernameMap && s.usernameMap[username] in s.records
    ensures r.Some? ==> r.value == s.records[s.usernameMap[username]]
  {
    if username in s.usernameMap then UserById(s, s.usernameMap[username]) else None
  }

  /** After `createUser` the username finds the new user; other usernames
      find what they found before. Applied twice with one username, the
      later user wins. */
  lemma UsernameFindsNewUser(s: Store, rid: string, username: string, firstName: string,
                             lastName: string, groups: seq<string>, other: string)
    requires rid !in s.records
    ensures UserByUsername(AddUser(s, rid, username, firstName, lastName, groups), username)
            == Some(UserRec(rid, username, UserTypeClass, groups, firstName, lastName, map[]))
    ensures other != username && (other in s.usernameMap ==> s.usernameMap[other] != rid) ==>
      UserByUsername(AddUser(s, rid, username, firstName, lastName, groups), other) == UserByUsername(s, other)
  {
  }

  /** `createGroup`. */
  function AddGroup(s: Store, gid: string, groupName: string, parentGroups: seq<string>): (r: Store)
    ensures r.groups == s.groups[gid := Group(gid, groupName, parentGroups)]
    ensures r.records == s.records && r.usernameMap == s.usernameMap
    ensures r.values == s.values && r.references == s.references && r.uniqueMap == s.uniqueMap
  {
    s.(groups := s.groups[gid := Group(gid, groupName, parentGroups)])
  }

  /** `getGroup`. */
  function GroupById(s: Store, gid: string): (r: Option<Group>)
    ensures r.Some? <==> gid in s.groups
    ensures r.Some? ==> r.value == s.groups[gid]
  {
    if gid in s.groups then Some(s.groups[gid]) else None
  }

  /** `setGroupName`: renames an existing group, keeping its id and parents;
      an unknown id changes nothing. */
  function RenameGroup(s: Store, gid: string, name: string): (r: Store)
    ensures gid in s.groups ==> r.groups == s.groups[gid := s.groups[gid].(groupName := name)]
    ensures gid !in s.groups ==> r == s
    ensures r.records == s.records
  {
    if gid in s.groups then s.(groups := s.groups[gid := s.groups[gid].(groupName := name)]) else s
  }

  /** After a rename, `getGroup` still returns the group, under its own id and
      with its parents, carrying the new name. */
  lemma RenameGroupKeepsGroup(s: Store, gid: string, name: string)
    requires gid in s.groups
    ensures GroupById(RenameGroup(s, gid, name), gid).Some?
    ensures GroupById(RenameGroup(s, gid, name), gid).value
            == Group(s.groups[gid].groupId, name, s.groups[gid].parentGroups)
  {
  }

  // ---------------------------------------------------------------------------
  // User fields and group membership

  predicate IsUser(s: Store, id: string) {
    id in s.records && s.records[id].UserRec?
  }

  /** `setUsername`: changes the record's username only; the username index is
      left as it was. */
  function SetUsernameIn(s: Store, id: string, username: string): (r: Store)
    ensures IsUser(s, id) ==> r.records == s.records[id := s.records[id].(username := username)]
    ensures !IsUser(s, id) ==> r == s
    ensures r.usernameMap == s.usernameMap
  {
    if IsUser(s, id) then s.(records := s.records[id := s.records[id].(username := username)]) else s
  }

  /** The old username still finds the renamed user, and the new one finds
      no one it did not find before. */
  lemma SetUsernameLeavesIndex(s: Store, id: string, oldName: string, newName: string)
    requires IsUser(s, id) && oldName in s.usernameMap && s.usernameMap[oldName] == id
    ensures UserByUsername(SetUsernameIn(s, id, newName), oldName).Some?
    ensures UserByUsername(SetUsernameIn(s, id, newName), oldName).value == s.records[id].(username := newName)
    ensures UserByUsername(SetUsernameIn(s, id, newName), newName).Some? ==> newName in s.usernameMap
  {
  }

  /** `setUserFirstName` / `setUserLastName`: writes `properties[key]` of an
      existing user; the `firstName` / `lastName` fields stay as created. */
  function SetNamePropIn(s: Store, id: string, key: string, name: string): (r: Store)
    ensures IsUser(s, id) ==> IsUser(r, id) && r.records[id].nameProps == s.records[id].nameProps[key := name]
    ensures IsUser(s, id) ==> r.records[id].firstName == s.records[id].firstName
                              && r.records[id].lastName == s.records[id].lastName
    ensures !IsUser(s, id) ==> r == s
  {
    if IsUser(s, id)
    then s.(records := s.records[id := s.records[id].(nameProps := s.records[id].nameProps[key := name])])
    else s
  }

  /** `getUserGroups`: the user's group ids, or false for an unknown user. */
  function UserGroups(s: Store, id: string): (r: Option<seq<string>>)
    ensures r.Some? <==> IsUser(s, id)
    ensures r.Some? ==> r.value == s.records[id].groups
  {
    if IsUser(s, id) then Some(s.records[id].groups) else None
  }

  /** `getGroupMembers`: the users whose groups include `gid`. */
  function GroupMembers(s: Store, gid: string): (r: map<string, Record>)
    ensures forall id :: id in r <==> id in s.records && s.records[id].UserRec? && gid in s.records[id].groups
    ensures forall id :: id in r ==> r[id] == s.records[id]
  {
    map id | id in s.records && s.records[id].UserRec? && gid in s.records[id].groups :: s.records[id]
  }

  /** `addUserToGroup`: inserts the group id into an existing user's set and
      answers true; false for an unknown user. */
  function AddToGroup(s: Store, id: string, gid: string): (r: (Store, bool))
    ensures r.1 <==> IsUser(s, id)
    ensures !r.1 ==> r.0 == s
    ensures r.1 ==> r.0.records == s.records[id := s.records[id].(groups := Insert(s.records[id].groups, gid))]
    ensures r.0.usernameMap == s.usernameMap && r.0.groups == s.groups
  {
    if IsUser(s, id)
    then (s.(records := s.records[id := s.records[id].(groups := Insert(s.records[id].groups, gid))]), true)
    else (s, false)
  }

  /** `removeUserFromGroup`: removes the group id from an existing user's set
      and answers true; false for an unknown user. */
  function RemoveFromGroup(s: Store, id: string, gid: string): (r: (Store, bool))
    ensures r.1 <==> IsUser(s, id)
    ensures !r.1 ==> r.0 == s
    ensures r.1 ==> r.0.records == s.records[id := s.records[id].(groups := Without(s.records[id].groups, gid))]
    ensures r.0.usernameMap == s.usernameMap && r.0.groups == s.groups
  {
    if IsUser(s, id)
    then (s.(records := s.records[id := s.records[id].(groups := Without(s.records[id].groups, gid))]), true)
    else (s, false)
  }

  /** Membership round trip: after adding, the user lists the group and the
      group lists the user; after removing, neither does; other users'
      memberships are untouched. */
  lemma MembershipRoundTrip(s: Store, id: string, gid: string, other: string)
    requires IsUser(s, id)
    ensures gid in UserGroups(AddToGroup(s, id, gid).0, id).value
    ensures id in GroupMembers(AddToGroup(s, id, gid).0, gid)
    ensures gid !in UserGroups(RemoveFromGroup(s, id, gid).0, id).value
    ensures id !in GroupMembers(RemoveFromGroup(s, id, gid).0, gid)
    ensures other != id ==>
      (other in GroupMembers(AddToGroup(s, id, gid).0, gid) <==> other in GroupMembers(s, gid))
    ensures other != id ==>
      (other in GroupMembers(RemoveFromGroup(s, id, gid).0, gid) <==> other in GroupMembers(s, gid))
  {
  }
}
