/** What creating, replacing and patching a group does to its name, members and published events. */
module GroupMeaning {
  import opened Prelude
  import opened Text
  import opened Groups

  /** All listed users exist, and none is listed twice. */
  predicate DistinctKnown(known: set<UserId>, users: seq<UserId>) {
    && (forall i :: 0 <= i < |users| ==> users[i] in known)
    && (forall i, j :: 0 <= i < j < |users| ==> users[i] != users[j])
  }

  lemma MemberFaultMeaning(known: set<UserId>, users: seq<UserId>)
    ensures var fault := MemberFault(known, users);
            && (fault == None <==> DistinctKnown(known, users))
            && (fault == Some(DuplicateMember) <==> exists i, j :: 0 <= i < j < |users| && users[i] == users[j])
            && (fault == None || fault == Some(DuplicateMember) || fault == Some(UnknownMember))
  {
    forall i | 0 <= i < |users| ensures users[i] in users {}
  }

  /** No other group has the name, ignoring case. */
  predicate NameFree(groups: map<GroupId, Group>, name: string, g: GroupId) {
    forall h :: h in groups && h != g ==> Lower(groups[h].displayName) != Lower(name)
  }

  /** Group `g` is what a path segment spells. */
  predicate Spelled(w: World, groupId: string, g: GroupId) {
    ParseInt(groupId) == Some(g as int) && g >= 1 && g in w.groups
  }

  /** The request left exactly this name, these members and these events behind. */
  predicate Left(w: World, w': World, g: GroupId, name: string, members: seq<UserId>, events: seq<Event>) {
    w' == w.(groups := w.groups[g := Group(name, members)], published := w.published + events)
  }

  function Added(g: GroupId, users: seq<UserId>): seq<Event> {
    seq(|users|, i requires 0 <= i < |users| => MemberAdded(g, users[i]))
  }

  lemma OnePatch(w: World, groupId: string, g: GroupId, op: PatchOperation, commits: bool)
    requires Spelled(w, groupId, g)
    ensures PatchStep(w, groupId, [op], commits) == Commit(w, g, Apply(w.users, w.groups, g, Draft(w.groups[g], []), op), commits)
  {
    hide Apply, Commit;
    assert FindGroup(w.groups, groupId) == Some(g);
    assert [op][1..] == [];
    var d := Draft(w.groups[g], []);
    assert ApplyAll(w.users, w.groups, g, d, [op]) ==
           var next := Apply(w.users, w.groups, g, d, op); if next.Err? then next else ApplyAll(w.users, w.groups, g, next.value, []);
  }

  /** "add members": exactly the old members followed by the listed ones, one event each. */
  lemma AddingMembers(w: World, groupId: string, g: GroupId, users: seq<UserId>, commits: bool)
    requires Spelled(w, groupId, g)
    ensures var (w', fault) := PatchStep(w, groupId, [Members(Add, users)], commits);
            var row := w.groups[g];
            && (fault == None <==>
                  commits && DistinctKnown(w.users, users) && forall i :: 0 <= i < |users| ==> users[i] !in row.members)
            && (fault == None ==> Left(w, w', g, row.displayName, row.members + users, Added(g, users)))
            && (fault != None ==> w' == w)
  {
    hide FindGroup, ApplyAll, EditEach;
    OnePatch(w, groupId, g, Members(Add, users), commits);
    AddingSucceedsIff(w.users, g, Draft(w.groups[g], []), users);
    assert [] + Added(g, users) == Added(g, users);
  }

  /** "remove members": exactly the members that are not listed stay, in their order. */
  lemma RemovingMembers(w: World, groupId: string, g: GroupId, users: seq<UserId>, commits: bool)
    requires Spelled(w, groupId, g) && Sound(w)
    ensures var (w', fault) := PatchStep(w, groupId, [Members(Remove, users)], commits);
            var row := w.groups[g];
            && (fault == None <==>
                  commits && DistinctKnown(w.users, users) && forall i :: 0 <= i < |users| ==> users[i] in row.members)
            && (fault == None ==>
                  && g in w'.groups
                  && Left(w, w', g, row.displayName, w'.groups[g].members, Removed(g, users))
                  && forall x :: x in w'.groups[g].members <==> x in row.members && x !in users)
            && (fault != None ==> w' == w)
  {
    hide FindGroup, ApplyAll, EditEach;
    OnePatch(w, groupId, g, Members(Remove, users), commits);
    var d := Draft(w.groups[g], []);
    assert GoodMembers(w.users, w.groups[g].members);
    RemovingSucceedsIff(w.users, g, d, users);
    RemovalEvents(w.users, g, d, users);
    assert [] + Removed(g, users) == Removed(g, users);
  }

  function Removed(g: GroupId, users: seq<UserId>): seq<Event> {
    seq(|users|, i requires 0 <= i < |users| => MemberRemoved(g, users[i]))
  }

  lemma {:induction false} RemovalEvents(known: set<UserId>, g: GroupId, d: Draft, users: seq<UserId>)
    ensures var r := EditEach(known, g, d, users, false); r.Ok? ==> r.value.events == d.events + Removed(g, users)
    decreases |users|
  {
    hide WithoutUser;
    if users == [] {
    } else {
      var next := RemoveMember(known, g, d, users[0]);
      if next.Ok? {
        RemovalEvents(known, g, next.value, users[1..]);
        assert Removed(g, users) == [MemberRemoved(g, users[0])] + Removed(g, users[1..]);
        assert d.events + Removed(g, users) == next.value.events + Removed(g, users[1..]);
      }
    }
  }

  /** "replace members": exactly the listed users, one event. */
  lemma ReplacingMembers(w: World, groupId: string, g: GroupId, users: seq<UserId>, commits: bool)
    requires Spelled(w, groupId, g)
    ensures var (w', fault) := PatchStep(w, groupId, [Members(Replace, users)], commits);
            && (fault == None <==> commits && DistinctKnown(w.users, users))
            && (fault == None ==> Left(w, w', g, w.groups[g].displayName, users, [MembersReplaced(g, users)]))
            && (fault != None ==> w' == w)
  {
    hide FindGroup, ApplyAll, MemberFault;
    OnePatch(w, groupId, g, Members(Replace, users), commits);
    MemberFaultMeaning(w.users, users);
    assert [] + [MembersReplaced(g, users)] == [MembersReplaced(g, users)];
  }

  /** "add" and "replace displayName": the name, with one event if it differs at all; "remove" is refused. */
  lemma Renaming(w: World, groupId: string, g: GroupId, verb: Verb, name: string, commits: bool)
    requires Spelled(w, groupId, g)
    ensures var (w', fault) := PatchStep(w, groupId, [Name(verb, name)], commits);
            var row := w.groups[g];
            && (fault == None <==> commits && verb != Remove && (row.displayName == name || NameFree(w.groups, name, g)))
            && (fault == None ==> Left(w, w', g, name, row.members, if row.displayName == name then [] else [GroupUpdated(g, name)]))
            && (fault == Some(DuplicateGroup) <==> verb != Remove && row.displayName != name && !NameFree(w.groups, name, g))
            && (fault != None ==> w' == w)
  {
    hide FindGroup, ApplyAll, Lower;
    OnePatch(w, groupId, g, Name(verb, name), commits);
    assert [] + [GroupUpdated(g, name)] == [GroupUpdated(g, name)];
  }

  /** The same row, with more events queued before. */
  function After(earlier: seq<Event>, edited: Edited): Edited {
    if edited.Err? then edited else Ok(Draft(edited.value.row, earlier + edited.value.events))
  }

  ghost predicate SameOthers(groups: map<GroupId, Group>, groups': map<GroupId, Group>, g: GroupId) {
    forall h :: h != g ==> Lookup(groups, h) == Lookup(groups', h)
  }

  lemma SameNames(groups: map<GroupId, Group>, groups': map<GroupId, Group>, g: GroupId, name: string)
    requires SameOthers(groups, groups', g)
    ensures NameTaken(groups, name, Some(g)) == NameTaken(groups', name, Some(g))
  {
    forall h | h != g ensures h in groups <==> h in groups' {
      assert Lookup(groups, h) == Lookup(groups', h);
    }
    forall h | h != g && h in groups ensures groups[h] == groups'[h] {
      assert Lookup(groups, h) == Lookup(groups', h);
    }
  }

  lemma {:induction false} EditEachLater(known: set<UserId>, g: GroupId, earlier: seq<Event>, d: Draft, users: seq<UserId>, adding: bool)
    ensures EditEach(known, g, Draft(d.row, earlier + d.events), users, adding) == After(earlier, EditEach(known, g, d, users, adding))
    decreases |users|
  {
    hide WithoutUser;
    if users == [] {
    } else {
      var next := if adding then AddMember(known, g, d, users[0]) else RemoveMember(known, g, d, users[0]);
      if next.Ok? {
        var e := if adding then MemberAdded(g, users[0]) else MemberRemoved(g, users[0]);
        assert earlier + d.events + [e] == earlier + (d.events + [e]);
        EditEachLater(known, g, earlier, next.value, users[1..], adding);
      }
    }
  }

  lemma ApplyLater(known: set<UserId>, groups: map<GroupId, Group>, groups': map<GroupId, Group>, g: GroupId,
                   earlier: seq<Event>, d: Draft, op: PatchOperation)
    requires SameOthers(groups, groups', g)
    ensures Apply(known, groups, g, Draft(d.row, earlier + d.events), op) == After(earlier, Apply(known, groups', g, d, op))
  {
    hide NameTaken, MemberFault, EditEach;
    match op
    case Name(verb, name) =>
      SameNames(groups, groups', g, name);
      assert earlier + d.events + [GroupUpdated(g, name)] == earlier + (d.events + [GroupUpdated(g, name)]);
    case Members(verb, users) =>
      EditEachLater(known, g, earlier, d, users, verb.Add?);
      assert earlier + d.events + [MembersReplaced(g, users)] == earlier + (d.events + [MembersReplaced(g, users)]);
  }

  lemma {:induction false} ApplyAllLater(known: set<UserId>, groups: map<GroupId, Group>, groups': map<GroupId, Group>, g: GroupId,
                                         earlier: seq<Event>, d: Draft, ops: seq<PatchOperation>)
    requires SameOthers(groups, groups', g)
    ensures ApplyAll(known, groups, g, Draft(d.row, earlier + d.events), ops) == After(earlier, ApplyAll(known, groups', g, d, ops))
    decreases |ops|
  {
    hide Apply;
    if ops == [] {
    } else {
      ApplyLater(known, groups, groups', g, earlier, d, ops[0]);
      var next := Apply(known, groups', g, d, ops[0]);
      if next.Ok? {
        ApplyAllLater(known, groups, groups', g, earlier, next.value, ops[1..]);
      }
    }
  }

  lemma {:induction false} ApplyInOrder(known: set<UserId>, groups: map<GroupId, Group>, g: GroupId, d: Draft,
                                        first: seq<PatchOperation>, rest: seq<PatchOperation>)
    ensures ApplyAll(known, groups, g, d, first + rest) ==
            var middle := ApplyAll(known, groups, g, d, first);
            if middle.Err? then middle else ApplyAll(known, groups, g, middle.value, rest)
    decreases |first|
  {
    hide Apply;
    if first == [] {
      assert first + rest == rest;
    } else {
      assert (first + rest)[1..] == first[1..] + rest;
      var next := Apply(known, groups, g, d, first[0]);
      if next.Ok? {
        ApplyInOrder(known, groups, g, next.value, first[1..], rest);
      }
    }
  }

  /** A patch of many operations means patching with them one after another, except that a fault in any
      of them undoes them all. */
  lemma PatchInOrder(w: World, groupId: string, g: GroupId, first: seq<PatchOperation>, rest: seq<PatchOperation>)
    requires Spelled(w, groupId, g)
    ensures var (w1, fault1) := PatchStep(w, groupId, first, true);
            var (w2, fault2) := PatchStep(w1, groupId, rest, true);
            PatchStep(w, groupId, first + rest, true) ==
              if fault1 != None then (w, fault1) else if fault2 != None then (w, fault2) else (w2, None)
  {
    hide ApplyAll;
    assert FindGroup(w.groups, groupId) == Some(g);
    var d := Draft(w.groups[g], []);
    ApplyInOrder(w.users, w.groups, g, d, first, rest);
    var middle := ApplyAll(w.users, w.groups, g, d, first);
    if middle.Ok? {
      var w1 := PatchStep(w, groupId, first, true).0;
      assert FindGroup(w1.groups, groupId) == Some(g);
      var d1 := Draft(middle.value.row, []);
      assert middle.value.events + [] == middle.value.events;
      ApplyAllLater(w.users, w.groups, w1.groups, g, middle.value.events, d1, rest);
      var last := ApplyAll(w.users, w1.groups, g, d1, rest);
      if last.Ok? {
        assert w.published + (middle.value.events + last.value.events) == w.published + middle.value.events + last.value.events;
        assert w.groups[g := middle.value.row][g := last.value.row] == w.groups[g := last.value.row];
      }
    }
  }

  /** Create: a fresh id, the name, the listed members, and their events. */
  lemma Creating(w: World, name: string, users: seq<UserId>, commits: bool)
    ensures var (w', fault) := CreateStep(w, name, users, commits);
            && (fault == None <==>
                  && commits && (forall h :: h in w.groups ==> Lower(w.groups[h].displayName) != Lower(name))
                  && DistinctKnown(w.users, users))
            && (fault == None ==>
                  && w'.users == w.users && w'.nextId == w.nextId + 1 && w'.groups == w.groups[w.nextId := Group(name, users)]
                  && w'.published == w.published + (if users == [] then [GroupCreated(w.nextId, name)]
                                                    else [GroupCreated(w.nextId, name), MembersReplaced(w.nextId, users)]))
            && (fault != None ==> w' == w)
  {
    hide MemberFault, Lower;
    MemberFaultMeaning(w.users, users);
    if users == [] {
      assert w.published + [GroupCreated(w.nextId, name)] + [] == w.published + [GroupCreated(w.nextId, name)];
    } else {
      assert w.published + [GroupCreated(w.nextId, name)] + [MembersReplaced(w.nextId, users)]
          == w.published + [GroupCreated(w.nextId, name), MembersReplaced(w.nextId, users)];
    }
  }

  /** Replace: the name and the listed members, with an event for a name that differs and one for the members. */
  lemma Replacing(w: World, groupId: string, g: GroupId, name: string, users: seq<UserId>, commits: bool)
    requires Spelled(w, groupId, g)
    ensures var (w', fault) := PutStep(w, groupId, name, users, commits);
            && (fault == None <==> commits && NameFree(w.groups, name, g) && DistinctKnown(w.users, users))
            && (fault == None ==>
                  Left(w, w', g, name, users, if w.groups[g].displayName == name then [MembersReplaced(g, users)]
                                              else [GroupUpdated(g, name), MembersReplaced(g, users)]))
            && (fault != None ==> w' == w)
  {
    hide MemberFault, Lower;
    assert FindGroup(w.groups, groupId) == Some(g);
    MemberFaultMeaning(w.users, users);
    assert [] + [MembersReplaced(g, users)] == [MembersReplaced(g, users)];
    assert [GroupUpdated(g, name)] + [MembersReplaced(g, users)] == [GroupUpdated(g, name), MembersReplaced(g, users)];
  }
}
