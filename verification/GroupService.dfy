/** The group service as it edits its tables: members one by one, events queued until the request is
    committed, everything undone when it fails. */
module GroupService {
  import opened Prelude
  import opened Text
  import opened Groups

  class Service {
    var users: set<UserId>
    var groups: map<GroupId, Group>
    var nextId: GroupId
    var pendingEvents: seq<Event>
    var published: seq<Event>

    function State(): World
      reads this
    {
      World(users, groups, nextId, published)
    }

    constructor ()
      ensures State() == EMPTY && pendingEvents == []
    {
      users, groups, nextId, pendingEvents, published := {}, map[], 1, [], [];
    }

    /** The tables hold the outcome of editing group `g` of `groups0`; after a fault they may hold
        any part of the edit, and the request is undone. */
    ghost predicate Holds(edited: Edited, groups0: map<GroupId, Group>, g: GroupId, fault: Option<Fault>)
      reads this
    {
      if edited.Err? then fault == Some(edited.error)
      else fault == None && groups == groups0[g := edited.value.row] && pendingEvents == edited.value.events
    }

    /** First a pass that remembers the ids seen, then a pass that looks each one up. */
    method RequireDistinctUsers(ids: seq<UserId>) returns (fault: Option<Fault>)
      ensures fault == MemberFault(users, ids)
    {
      var seen: set<UserId> := {};
      for i := 0 to |ids|
        invariant seen == set j | 0 <= j < i :: ids[j]
        invariant NoRepeats(ids[..i])
      {
        if ids[i] in seen {
          return Some(DuplicateMember);
        }
        seen := seen + {ids[i]};
      }
      assert ids[..|ids|] == ids;
      for i := 0 to |ids|
        invariant forall j :: 0 <= j < i ==> ids[j] in users
      {
        if ids[i] !in users {
          return Some(UnknownMember);
        }
      }
      fault := None;
    }

    method RenameRow(g: GroupId, name: string) returns (fault: Option<Fault>)
      requires g in groups
      modifies this`groups, this`pendingEvents
      ensures Holds(Rename(old(groups), g, Draft(old(groups)[g], old(pendingEvents)), name), old(groups), g, fault)
    {
      if groups[g].displayName == name {
        SameRow(groups, g);
        return None;
      }
      if NameTaken(groups, name, Some(g)) {
        return Some(DuplicateGroup);
      }
      groups := groups[g := groups[g].(displayName := name)];
      pendingEvents := pendingEvents + [GroupUpdated(g, name)];
      fault := None;
    }

    method AddRow(g: GroupId, u: UserId) returns (fault: Option<Fault>)
      requires g in groups
      modifies this`groups, this`pendingEvents
      ensures Holds(AddMember(users, g, Draft(old(groups)[g], old(pendingEvents)), u), old(groups), g, fault)
    {
      if u !in users {
        return Some(UnknownMember);
      }
      if u in groups[g].members {
        return Some(DuplicateMember);
      }
      groups := groups[g := groups[g].(members := groups[g].members + [u])];
      pendingEvents := pendingEvents + [MemberAdded(g, u)];
      fault := None;
    }

    method RemoveRow(g: GroupId, u: UserId) returns (fault: Option<Fault>)
      requires g in groups
      modifies this`groups, this`pendingEvents
      ensures Holds(RemoveMember(users, g, Draft(old(groups)[g], old(pendingEvents)), u), old(groups), g, fault)
    {
      if u !in users || u !in groups[g].members {
        return Some(UnknownMember);
      }
      groups := groups[g := groups[g].(members := WithoutUser(groups[g].members, u))];
      pendingEvents := pendingEvents + [MemberRemoved(g, u)];
      fault := None;
    }

    /** Clears the member rows and appends the new ones in order. */
    method ReplaceRows(g: GroupId, ids: seq<UserId>) returns (fault: Option<Fault>)
      requires g in groups
      modifies this`groups, this`pendingEvents
      ensures Holds(ReplaceMembers(users, g, Draft(old(groups)[g], old(pendingEvents)), ids), old(groups), g, fault)
    {
      fault := RequireDistinctUsers(ids);
      if fault.Some? {
        return;
      }
      groups := groups[g := groups[g].(members := [])];
      for i := 0 to |ids|
        invariant groups == old(groups)[g := old(groups)[g].(members := ids[..i])]
        invariant pendingEvents == old(pendingEvents)
      {
        assert ids[..i + 1] == ids[..i] + [ids[i]];
        groups := groups[g := groups[g].(members := groups[g].members + [ids[i]])];
      }
      assert ids[..|ids|] == ids;
      pendingEvents := pendingEvents + [MembersReplaced(g, ids)];
    }

    method EditRows(g: GroupId, ids: seq<UserId>, adding: bool) returns (fault: Option<Fault>)
      requires g in groups
      modifies this`groups, this`pendingEvents
      ensures Holds(EditEach(users, g, Draft(old(groups)[g], old(pendingEvents)), ids, adding), old(groups), g, fault)
    {
      hide AddMember, RemoveMember;
      fault := None;
      SameRow(groups, g);
      for i := 0 to |ids|
        invariant g in groups && groups == old(groups)[g := groups[g]]
        invariant EditEach(users, g, Draft(old(groups)[g], old(pendingEvents)), ids, adding)
               == EditEach(users, g, Draft(groups[g], pendingEvents), ids[i..], adding)
        invariant fault == None
      {
        assert ids[i..][1..] == ids[i + 1..];
        if adding {
          fault := AddRow(g, ids[i]);
        } else {
          fault := RemoveRow(g, ids[i]);
        }
        if fault.Some? {
          return;
        }
      }
    }

    /** The operations in order, stopping at the first fault. */
    method ApplyOperations(g: GroupId, operations: seq<PatchOperation>) returns (fault: Option<Fault>)
      requires g in groups
      modifies this`groups, this`pendingEvents
      ensures Holds(ApplyAll(users, old(groups), g, Draft(old(groups)[g], old(pendingEvents)), operations), old(groups), g, fault)
    {
      hide Rename, ReplaceMembers, EditEach;
      fault := None;
      SameRow(groups, g);
      for i := 0 to |operations|
        invariant g in groups && groups == old(groups)[g := groups[g]]
        invariant ApplyAll(users, old(groups), g, Draft(old(groups)[g], old(pendingEvents)), operations)
               == ApplyAll(users, old(groups), g, Draft(groups[g], pendingEvents), operations[i..])
        invariant fault == None
      {
        assert operations[i..][1..] == operations[i + 1..];
        match operations[i] {
          case Name(verb, name) =>
            if verb.Remove? {
              return Some(InvalidValue);
            }
            OtherNames(old(groups), g, groups[g], Draft(groups[g], pendingEvents), name);
            fault := RenameRow(g, name);
          case Members(verb, ids) =>
            if verb.Replace? {
              fault := ReplaceRows(g, ids);
            } else {
              fault := EditRows(g, ids, verb.Add?);
            }
        }
        if fault.Some? {
          return;
        }
      }
    }

    method Rollback(groups0: map<GroupId, Group>, nextId0: GroupId)
      modifies this`groups, this`nextId, this`pendingEvents
      ensures groups == groups0 && nextId == nextId0 && pendingEvents == []
    {
      groups, nextId, pendingEvents := groups0, nextId0, [];
    }

    method Publish()
      modifies this`published, this`pendingEvents
      ensures published == old(published) + old(pendingEvents) && pendingEvents == []
    {
      published, pendingEvents := published + pendingEvents, [];
    }

    method CreateGroup(name: string, ids: seq<UserId>, commits: bool) returns (fault: Option<Fault>)
      requires pendingEvents == []
      modifies this
      ensures (State(), fault) == CreateStep(old(State()), name, ids, commits) && pendingEvents == []
    {
      hide NameTaken, MemberFault;
      if NameTaken(groups, name, None) {
        return Some(DuplicateGroup);
      }
      fault := RequireDistinctUsers(ids);
      if fault.Some? {
        return;
      }
      var groups0, nextId0 := groups, nextId;
      var g := nextId;
      groups, nextId := groups[g := Group(name, [])], nextId + 1;
      for i := 0 to |ids|
        invariant groups == old(groups)[g := Group(name, ids[..i])]
        invariant State() == old(State()).(groups := groups, nextId := g + 1) && pendingEvents == []
      {
        assert ids[..i + 1] == ids[..i] + [ids[i]];
        groups := groups[g := groups[g].(members := groups[g].members + [ids[i]])];
      }
      assert ids[..|ids|] == ids;
      pendingEvents := pendingEvents + [GroupCreated(g, name)];
      if ids != [] {
        pendingEvents := pendingEvents + [MembersReplaced(g, ids)];
      }
      if !commits {
        Rollback(groups0, nextId0);
        return Some(DatabaseError);
      }
      assert published + pendingEvents
          == published + [GroupCreated(g, name)] + if ids == [] then [] else [MembersReplaced(g, ids)];
      Publish();
      fault := None;
    }

    method ReplaceGroup(groupId: string, name: string, ids: seq<UserId>, commits: bool) returns (fault: Option<Fault>)
      requires pendingEvents == []
      modifies this
      ensures (State(), fault) == PutStep(old(State()), groupId, name, ids, commits) && pendingEvents == []
    {
      hide NameTaken, ReplaceMembers;
      var found := FindGroup(groups, groupId);
      if found.None? {
        return Some(GroupNotFound);
      }
      var g := found.value;
      var groups0, nextId0 := groups, nextId;
      var oldName := groups[g].displayName;
      if NameTaken(groups, name, found) {
        return Some(DuplicateGroup);
      }
      groups := groups[g := groups[g].(displayName := name)];
      if oldName != name {
        pendingEvents := pendingEvents + [GroupUpdated(g, name)];
        assert pendingEvents == [GroupUpdated(g, name)];
      }
      fault := ReplaceRows(g, ids);
      if fault.Some? {
        Rollback(groups0, nextId0);
        return;
      }
      if !commits {
        Rollback(groups0, nextId0);
        return Some(DatabaseError);
      }
      assert groups == groups0[g := groups[g]];
      Publish();
    }

    method PatchGroup(groupId: string, operations: seq<PatchOperation>, commits: bool) returns (fault: Option<Fault>)
      requires pendingEvents == []
      modifies this
      ensures (State(), fault) == PatchStep(old(State()), groupId, operations, commits) && pendingEvents == []
    {
      hide ApplyAll;
      var found := FindGroup(groups, groupId);
      if found.None? {
        return Some(GroupNotFound);
      }
      var groups0, nextId0 := groups, nextId;
      fault := ApplyOperations(found.value, operations);
      if fault.Some? {
        Rollback(groups0, nextId0);
        return;
      }
      if !commits {
        Rollback(groups0, nextId0);
        return Some(DatabaseError);
      }
      Publish();
    }
  }

  lemma SameRow(groups: map<GroupId, Group>, g: GroupId)
    requires g in groups
    ensures groups == groups[g := groups[g]]
  {
  }

  /** Renaming looks only at the other groups' names. */
  lemma OtherNames(groups: map<GroupId, Group>, g: GroupId, row: Group, d: Draft, name: string)
    ensures Rename(groups[g := row], g, d, name) == Rename(groups, g, d, name)
  {
    var groups' := groups[g := row];
    if NameTaken(groups, name, Some(g)) {
      var h :| h in groups && Some(h) != Some(g) && Lower(groups[h].displayName) == Lower(name);
      assert h in groups' && groups'[h] == groups[h];
    }
  }
}
