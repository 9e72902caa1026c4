/** Two operations of SimulatorHandler.php as written, next to the corrected
    definitions the rest of the model uses (Linking.DeleteEach,
    RecordStore.RenameGroup), with the inputs that tell them apart. */
module Findings {
  import opened Base
  import opened OrderedSets
  import opened RecordStore
  import opened ReferenceRules
  import opened Linking

  /** `deleteReference` as written: the loop overwrites `$id` with the
      object's id, so it removes the object's id from the object's own entry
      in the acting record's store; it then reads the undefined `$namespace`
      and throws, so no later object is reached. */
  function DeleteReferenceAsWritten(prefixOf: string -> string, st: Stores, acting: ObjRef, code: string,
                                    objects: seq<ObjRef>): (r: (Stores, Outcome))
    ensures objects == [] <==> r.1.Pass?
    ensures objects == [] ==> r.0 == st
  {
    if objects == [] then (st, Pass)
    else
      var o := objects[0];
      (Remove(st, KeyOf(prefixOf, acting), o.id, code, o.id), Fail(UndefinedNamespace))
  }

  /** When the acting record links an object with another id, the as-written
      delete leaves that link in place and fails; the corrected delete removes
      it. */
  lemma DeleteAsWrittenKeepsLink(prefixOf: string -> string, st: Stores, acting: ObjRef, o: ObjRef, code: string)
    requires o.id != acting.id
    requires Links(st, KeyOf(prefixOf, acting), acting.id, code, o.id)
    ensures Links(DeleteReferenceAsWritten(prefixOf, st, acting, code, [o]).0, KeyOf(prefixOf, acting), acting.id, code, o.id)
    ensures DeleteReferenceAsWritten(prefixOf, st, acting, code, [o]).1 == Fail(UndefinedNamespace)
    ensures !Links(DeleteEach(prefixOf, st, acting, code, [o]), KeyOf(prefixOf, acting), acting.id, code, o.id)
  {
    DeleteUnlinksBothWays(prefixOf, st, acting, code, [o]);
  }

  /** A slot of the `groups` array: a group record, or the bare string the
      as-written `setGroupName` stores there. */
  datatype GroupSlot = GroupRecord(group: Group) | BareName(name: string)

  /** `setGroupName` as written: an existing slot is overwritten with the
      name itself. */
  function SetGroupNameAsWritten(groups: map<string, GroupSlot>, gid: string, name: string): (r: map<string, GroupSlot>)
    ensures r.Keys == groups.Keys
    ensures gid in groups ==> r[gid] == BareName(name)
  {
    if gid in groups then groups[gid := BareName(name)] else groups
  }

  /** After the as-written rename, the group's record (its id and parent
      groups) is gone; the corrected rename keeps it with the new name. */
  lemma SetGroupNameAsWrittenLosesGroup(s: Store, gid: string, name: string)
    requires gid in s.groups
    ensures var slots := map g | g in s.groups :: GroupRecord(s.groups[g]);
      !SetGroupNameAsWritten(slots, gid, name)[gid].GroupRecord?
    ensures GroupById(RenameGroup(s, gid, name), gid) == Some(s.groups[gid].(groupName := name))
  {
  }
}
