/** SCIM groups: members, renames and patches, each request committed or undone as a whole, and the
    domain events that are published for it. */
module Groups {
  import opened Prelude
  import opened Text

  type UserId = nat
  type GroupId = nat

  datatype Group = Group(displayName: string, members: seq<UserId>)

  datatype Event =
    | GroupCreated(group: GroupId, name: string)
    | GroupUpdated(group: GroupId, name: string)
    | MemberAdded(group: GroupId, user: UserId)
    | MemberRemoved(group: GroupId, user: UserId)
    | MembersReplaced(group: GroupId, users: seq<UserId>)

  datatype Verb = Add | Remove | Replace

  datatype PatchOperation = Name(verb: Verb, name: string) | Members(verb: Verb, users: seq<UserId>)

  datatype Fault = InvalidValue | GroupNotFound | DuplicateGroup | DuplicateMember | UnknownMember | DatabaseError

  datatype World = World(users: set<UserId>, groups: map<GroupId, Group>, nextId: GroupId, published: seq<Event>)

  /** `commits` is false when the database refuses the request, at a flush or at the commit; the
      request is then undone as a whole. */
  datatype Request =
    | AddUser(user: UserId)
    | Create(name: string, users: seq<UserId>, commits: bool)
    | Put(groupId: string, name: string, users: seq<UserId>, commits: bool)
    | Patch(groupId: string, operations: seq<PatchOperation>, commits: bool)

  const EMPTY: World := World({}, map[], 1, [])

  // ----- One group under edit: its row, and the events queued so far

  datatype Draft = Draft(row: Group, events: seq<Event>)

  type Edited = Result<Draft, Fault>

  predicate NameTaken(groups: map<GroupId, Group>, name: string, except: Option<GroupId>) {
    exists g :: g in groups && Some(g) != except && Lower(groups[g].displayName) == Lower(name)
  }

  predicate NoRepeats(users: seq<UserId>) {
    forall i, j :: 0 <= i < j < |users| ==> users[i] != users[j]
  }

  function Rename(groups: map<GroupId, Group>, g: GroupId, d: Draft, name: string): Edited {
    if d.row.displayName == name then Ok(d)
    else if NameTaken(groups, name, Some(g)) then Err(DuplicateGroup)
    else Ok(Draft(d.row.(displayName := name), d.events + [GroupUpdated(g, name)]))
  }

  function AddMember(known: set<UserId>, g: GroupId, d: Draft, u: UserId): Edited {
    if u !in known then Err(UnknownMember)
    else if u in d.row.members then Err(DuplicateMember)
    else Ok(Draft(d.row.(members := d.row.members + [u]), d.events + [MemberAdded(g, u)]))
  }

  function WithoutUser(members: seq<UserId>, u: UserId): seq<UserId> {
    if members == [] then []
    else if members[0] == u then members[1..]
    else [members[0]] + WithoutUser(members[1..], u)
  }

  function RemoveMember(known: set<UserId>, g: GroupId, d: Draft, u: UserId): Edited {
    if u !in known || u !in d.row.members then Err(UnknownMember)
    else Ok(Draft(d.row.(members := WithoutUser(d.row.members, u)), d.events + [MemberRemoved(g, u)]))
  }

  function MemberFault(known: set<UserId>, users: seq<UserId>): Option<Fault> {
    if !NoRepeats(users) then Some(DuplicateMember)
    else if exists u :: u in users && u !in known then Some(UnknownMember)
    else None
  }

  function ReplaceMembers(known: set<UserId>, g: GroupId, d: Draft, users: seq<UserId>): Edited {
    var fault := MemberFault(known, users);
    if fault.Some? then Err(fault.value)
    else Ok(Draft(d.row.(members := users), d.events + [MembersReplaced(g, users)]))
  }

  function EditEach(known: set<UserId>, g: GroupId, d: Draft, users: seq<UserId>, adding: bool): Edited
    decreases |users|
  {
    if users == [] then Ok(d)
    else
      var next := if adding then AddMember(known, g, d, users[0]) else RemoveMember(known, g, d, users[0]);
      if next.Err? then next else EditEach(known, g, next.value, users[1..], adding)
  }

  function Apply(known: set<UserId>, groups: map<GroupId, Group>, g: GroupId, d: Draft, op: PatchOperation): Edited {
    match op
    case Name(verb, name) => if verb.Remove? then Err(InvalidValue) else Rename(groups, g, d, name)
    case Members(verb, users) =>
      if verb.Replace? then ReplaceMembers(known, g, d, users) else EditEach(known, g, d, users, verb.Add?)
  }

  function ApplyAll(known: set<UserId>, groups: map<GroupId, Group>, g: GroupId, d: Draft, ops: seq<PatchOperation>): Edited
    decreases |ops|
  {
    if ops == [] then Ok(d)
    else
      var next := Apply(known, groups, g, d, ops[0]);
      if next.Err? then next else ApplyAll(known, groups, g, next.value, ops[1..])
  }

  // ----- Requests

  function FindGroup(groups: map<GroupId, Group>, groupId: string): (r: Option<GroupId>)
    ensures forall g: GroupId :: r == Some(g) <==> g >= 1 && g in groups && ParseInt(groupId) == Some(g as int)
  {
    var id := ParseInt(groupId);
    if id.None? || id.value < 1 || id.value !in groups then None else Some(id.value)
  }

  function Commit(w: World, g: GroupId, edited: Edited, commits: bool): (World, Option<Fault>) {
    if edited.Err? then (w, Some(edited.error))
    else if !commits then (w, Some(DatabaseError))
    else (w.(groups := w.groups[g := edited.value.row], published := w.published + edited.value.events), None)
  }

  function CreateStep(w: World, name: string, users: seq<UserId>, commits: bool): (World, Option<Fault>) {
    var fault := MemberFault(w.users, users);
    if NameTaken(w.groups, name, None) then (w, Some(DuplicateGroup))
    else if fault.Some? then (w, Some(fault.value))
    else if !commits then (w, Some(DatabaseError))
    else (World(w.users, w.groups[w.nextId := Group(name, users)], w.nextId + 1,
                w.published + [GroupCreated(w.nextId, name)] + if users == [] then [] else [MembersReplaced(w.nextId, users)]), None)
  }

  function PutStep(w: World, groupId: string, name: string, users: seq<UserId>, commits: bool): (World, Option<Fault>) {
    var g := FindGroup(w.groups, groupId);
    if g.None? then (w, Some(GroupNotFound))
    else
      var row := w.groups[g.value];
      if NameTaken(w.groups, name, g) then (w, Some(DuplicateGroup))
      else
        var renamed := Draft(row.(displayName := name), if row.displayName != name then [GroupUpdated(g.value, name)] else []);
        Commit(w, g.value, ReplaceMembers(w.users, g.value, renamed, users), commits)
  }

  function PatchStep(w: World, groupId: string, ops: seq<PatchOperation>, commits: bool): (World, Option<Fault>) {
    var g := FindGroup(w.groups, groupId);
    if g.None? then (w, Some(GroupNotFound))
    else Commit(w, g.value, ApplyAll(w.users, w.groups, g.value, Draft(w.groups[g.value], []), ops), commits)
  }

  function Step(w: World, r: Request): (World, Option<Fault>) {
    match r
    case AddUser(u) => (w.(users := w.users + {u}), None)
    case Create(name, users, commits) => CreateStep(w, name, users, commits)
    case Put(groupId, name, users, commits) => PutStep(w, groupId, name, users, commits)
    case Patch(groupId, ops, commits) => PatchStep(w, groupId, ops, commits)
  }

  function Run(w: World, requests: seq<Request>): World {
    if requests == [] then w
    else
      var n := |requests| - 1;
      Step(Run(w, requests[..n]), requests[n]).0
  }

  // ----- Replaying the published events

  datatype View = View(displayName: string, members: set<UserId>)

  /** The group an event speaks about, after the event; an event about an unknown group starts from
      an empty one. */
  function Effect(v: View, e: Event): View {
    match e
    case GroupCreated(_, name) => View(name, {})
    case GroupUpdated(_, name) => v.(displayName := name)
    case MemberAdded(_, u) => v.(members := v.members + {u})
    case MemberRemoved(_, u) => v.(members := v.members - {u})
    case MembersReplaced(_, users) => v.(members := set u | u in users)
  }

  function Replay(events: seq<Event>): map<GroupId, View> {
    if events == [] then map[]
    else
      var n := |events| - 1;
      var before, g := Replay(events[..n]), events[n].group;
      before[g := Effect(GetOr(before, g, View("", {})), events[n])]
  }

  function ViewOf(row: Group): View {
    View(row.displayName, set u | u in row.members)
  }

  function Views(groups: map<GroupId, Group>): map<GroupId, View> {
    map g | g in groups :: ViewOf(groups[g])
  }

  ghost predicate LogAgrees(w: World) {
    Replay(w.published) == Views(w.groups)
  }

  /** Members are distinct existing users, names are unique ignoring case, and ids are fresh. */
  ghost predicate Sound(w: World) {
    && (forall g :: g in w.groups ==> g < w.nextId && GoodMembers(w.users, w.groups[g].members))
    && (forall g, h :: g in w.groups && h in w.groups && g != h ==>
          Lower(w.groups[g].displayName) != Lower(w.groups[h].displayName))
  }

  ghost predicate GoodMembers(known: set<UserId>, members: seq<UserId>) {
    NoRepeats(members) && forall u :: u in members ==> u in known
  }

  // ----- Edits keep the draft sound and its events truthful

  /** The row is sound among `groups`, and the events turn group `g` of `log` into the row. */
  ghost predicate DraftFits(known: set<UserId>, groups: map<GroupId, Group>, g: GroupId, log: seq<Event>, d: Draft) {
    && GoodMembers(known, d.row.members)
    && !NameTaken(groups, d.row.displayName, Some(g))
    && Replay(log + d.events) == Replay(log)[g := ViewOf(d.row)]
  }

  lemma ReplayAppend(events: seq<Event>, e: Event)
    ensures var before := Replay(events);
            Replay(events + [e]) == before[e.group := Effect(GetOr(before, e.group, View("", {})), e)]
  {
    assert (events + [e])[..|events|] == events;
  }

  lemma EventExtends(groups: map<GroupId, Group>, g: GroupId, log: seq<Event>, d: Draft, row: Group, e: Event)
    requires Replay(log + d.events) == Replay(log)[g := ViewOf(d.row)]
    requires e.group == g && Effect(ViewOf(d.row), e) == ViewOf(row)
    ensures Replay(log + (d.events + [e])) == Replay(log)[g := ViewOf(row)]
  {
    assert log + (d.events + [e]) == (log + d.events) + [e];
    ReplayAppend(log + d.events, e);
  }

  lemma {:induction false} WithoutUserMembers(members: seq<UserId>, u: UserId)
    requires NoRepeats(members)
    ensures NoRepeats(WithoutUser(members, u))
    ensures forall x :: x in WithoutUser(members, u) <==> x in members && x != u
    decreases |members|
  {
    if members == [] {
    } else {
      var rest := members[1..];
      WithoutUserMembers(rest, u);
      assert members == [members[0]] + rest;
      forall j | 0 <= j < |rest| ensures rest[j] == members[j + 1] && rest[j] != members[0] {}
      ghost var kept := WithoutUser(rest, u);
      assert members[0] !in kept;
      if members[0] != u {
        forall i, j | 0 <= i < j < |kept| + 1 ensures ([members[0]] + kept)[i] != ([members[0]] + kept)[j] {
          assert kept[j - 1] in kept;
        }
      }
    }
  }

  lemma AddFits(known: set<UserId>, groups: map<GroupId, Group>, g: GroupId, log: seq<Event>, d: Draft, u: UserId)
    requires DraftFits(known, groups, g, log, d)
    ensures var r := AddMember(known, g, d, u); r.Ok? ==> DraftFits(known, groups, g, log, r.value)
  {
    hide NameTaken, Replay;
    var r := AddMember(known, g, d, u);
    if r.Ok? {
      EventExtends(groups, g, log, d, r.value.row, MemberAdded(g, u));
    }
  }

  lemma RemoveFits(known: set<UserId>, groups: map<GroupId, Group>, g: GroupId, log: seq<Event>, d: Draft, u: UserId)
    requires DraftFits(known, groups, g, log, d)
    ensures var r := RemoveMember(known, g, d, u); r.Ok? ==> DraftFits(known, groups, g, log, r.value)
  {
    hide NameTaken, Replay, WithoutUser;
    var r := RemoveMember(known, g, d, u);
    if r.Ok? {
      WithoutUserMembers(d.row.members, u);
      EventExtends(groups, g, log, d, r.value.row, MemberRemoved(g, u));
    }
  }

  lemma ReplaceFits(known: set<UserId>, groups: map<GroupId, Group>, g: GroupId, log: seq<Event>, d: Draft, users: seq<UserId>)
    requires DraftFits(known, groups, g, log, d)
    ensures var r := ReplaceMembers(known, g, d, users); r.Ok? ==> DraftFits(known, groups, g, log, r.value)
  {
    hide NameTaken, Replay;
    var r := ReplaceMembers(known, g, d, users);
    if r.Ok? {
      EventExtends(groups, g, log, d, r.value.row, MembersReplaced(g, users));
    }
  }

  lemma RenameFits(known: set<UserId>, groups: map<GroupId, Group>, g: GroupId, log: seq<Event>, d: Draft, name: string)
    requires DraftFits(known, groups, g, log, d)
    ensures var r := Rename(groups, g, d, name); r.Ok? ==> DraftFits(known, groups, g, log, r.value)
  {
    hide NameTaken, Replay, NoRepeats;
    var r := Rename(groups, g, d, name);
    if r.Ok? {
      EventExtends(groups, g, log, d, r.value.row, GroupUpdated(g, name));
    }
  }

  lemma {:induction false} EditEachFits(known: set<UserId>, groups: map<GroupId, Group>, g: GroupId, log: seq<Event>,
                                        d: Draft, users: seq<UserId>, adding: bool)
    requires DraftFits(known, groups, g, log, d)
    ensures var r := EditEach(known, g, d, users, adding); r.Ok? ==> DraftFits(known, groups, g, log, r.value)
    decreases |users|
  {
    hide DraftFits, AddMember, RemoveMember;
    if users == [] {
    } else {
      AddFits(known, groups, g, log, d, users[0]);
      RemoveFits(known, groups, g, log, d, users[0]);
      var next := if adding then AddMember(known, g, d, users[0]) else RemoveMember(known, g, d, users[0]);
      if next.Ok? {
        EditEachFits(known, groups, g, log, next.value, users[1..], adding);
      }
    }
  }

  lemma {:induction false} ApplyAllFits(known: set<UserId>, groups: map<GroupId, Group>, g: GroupId, log: seq<Event>,
                                        d: Draft, ops: seq<PatchOperation>)
    requires DraftFits(known, groups, g, log, d)
    ensures var r := ApplyAll(known, groups, g, d, ops); r.Ok? ==> DraftFits(known, groups, g, log, r.value)
    decreases |ops|
  {
    hide DraftFits, Rename, ReplaceMembers, EditEach;
    if ops == [] {
    } else {
      match ops[0] {
        case Name(_, name) => RenameFits(known, groups, g, log, d, name);
        case Members(verb, users) =>
          ReplaceFits(known, groups, g, log, d, users);
          EditEachFits(known, groups, g, log, d, users, verb.Add?);
      }
      var next := Apply(known, groups, g, d, ops[0]);
      if next.Ok? {
        ApplyAllFits(known, groups, g, log, next.value, ops[1..]);
      }
    }
  }

  /** A list of additions succeeds exactly when it names distinct known users outside the group;
      they are then appended in order, one event each. */
  lemma {:induction false} AddingSucceedsIff(known: set<UserId>, g: GroupId, d: Draft, users: seq<UserId>)
    ensures var r := EditEach(known, g, d, users, true);
            && (r.Ok? <==> GoodMembers(known, users) && forall u :: u in users ==> u !in d.row.members)
            && (r.Ok? ==> r.value == Draft(d.row.(members := d.row.members + users),
                                           d.events + seq(|users|, i requires 0 <= i < |users| => MemberAdded(g, users[i]))))
    decreases |users|
  {
    var r := EditEach(known, g, d, users, true);
    if users == [] {
      assert d.row.members + users == d.row.members;
    } else {
      var u, rest := users[0], users[1..];
      NoRepeatsSplit(users);
      assert users == [u] + rest;
      var next := AddMember(known, g, d, u);
      if next.Ok? {
        AddingSucceedsIff(known, g, next.value, rest);
        assert d.row.members + users == next.value.row.members + rest;
        if r.Ok? {
          assert r.value.events == d.events + seq(|users|, i requires 0 <= i < |users| => MemberAdded(g, users[i]));
        }
      }
    }
  }

  /** A list of removals succeeds exactly when it names distinct known members; the rest stay. */
  lemma {:induction false} RemovingSucceedsIff(known: set<UserId>, g: GroupId, d: Draft, users: seq<UserId>)
    requires NoRepeats(d.row.members)
    ensures var r := EditEach(known, g, d, users, false);
            && (r.Ok? <==> GoodMembers(known, users) && forall u :: u in users ==> u in d.row.members)
            && (r.Ok? ==> r.value.row.displayName == d.row.displayName)
            && (r.Ok? ==> forall x :: x in r.value.row.members <==> x in d.row.members && x !in users)
    decreases |users|
  {
    hide WithoutUser;
    if users == [] {
    } else {
      var u, rest := users[0], users[1..];
      NoRepeatsSplit(users);
      assert users == [u] + rest;
      var next := RemoveMember(known, g, d, u);
      if next.Ok? {
        WithoutUserMembers(d.row.members, u);
        hide NoRepeats, RemoveMember;
        RemovingSucceedsIff(known, g, next.value, rest);
      }
    }
  }

  lemma NoRepeatsSplit(users: seq<UserId>)
    requires users != []
    ensures NoRepeats(users) <==> users[0] !in users[1..] && NoRepeats(users[1..])
  {
    var rest := users[1..];
    if NoRepeats(users) {
      forall i, j | 0 <= i < j < |rest| ensures rest[i] != rest[j] {
        assert rest[i] == users[i + 1] && rest[j] == users[j + 1];
      }
    }
    if users[0] !in rest && NoRepeats(rest) {
      forall i, j | 0 <= i < j < |users| ensures users[i] != users[j] {
        assert users[j] == rest[j - 1];
      }
    }
  }

  // ----- Steps and runs

  lemma FreshDraftFits(w: World, g: GroupId)
    requires Sound(w) && LogAgrees(w) && g in w.groups
    ensures DraftFits(w.users, w.groups, g, w.published, Draft(w.groups[g], []))
  {
    assert w.published + [] == w.published;
    assert Views(w.groups)[g := ViewOf(w.groups[g])] == Views(w.groups);
  }

  lemma CommitKeeps(w: World, g: GroupId, edited: Edited, commits: bool)
    requires Sound(w) && LogAgrees(w) && g in w.groups
    requires edited.Ok? ==> DraftFits(w.users, w.groups, g, w.published, edited.value)
    ensures Sound(Commit(w, g, edited, commits).0) && LogAgrees(Commit(w, g, edited, commits).0)
  {
    if edited.Ok? && commits {
      var w' := Commit(w, g, edited, commits).0;
      assert Views(w'.groups) == Views(w.groups)[g := ViewOf(edited.value.row)];
    }
  }

  lemma CreateKeeps(w: World, name: string, users: seq<UserId>, commits: bool)
    requires Sound(w) && LogAgrees(w)
    ensures var w' := CreateStep(w, name, users, commits).0; Sound(w') && LogAgrees(w')
  {
    hide Sound, Replay, NameTaken, MemberFault, Views;
    if CreateStep(w, name, users, commits).1.None? {
      CreatedSound(w, name, users, commits);
      FreshGroupLog(w, name, users, commits);
      ViewsOfNew(w.groups, w.nextId, Group(name, users));
    }
  }

  lemma ViewsOfNew(groups: map<GroupId, Group>, g: GroupId, row: Group)
    ensures Views(groups[g := row]) == Views(groups)[g := ViewOf(row)]
  {
  }

  lemma FreshGroupLog(w: World, name: string, users: seq<UserId>, commits: bool)
    requires Sound(w) && LogAgrees(w) && CreateStep(w, name, users, commits).1.None?
    ensures Replay(CreateStep(w, name, users, commits).0.published) == Views(w.groups)[w.nextId := ViewOf(Group(name, users))]
  {
    hide Replay, NameTaken, MemberFault;
    var g := w.nextId;
    assert g !in Views(w.groups);
    hide Views, Sound;
    ReplayAppend(w.published, GroupCreated(g, name));
    var created := w.published + [GroupCreated(g, name)];
    assert Replay(created) == Views(w.groups)[g := View(name, {})];
    if users == [] {
      assert CreateStep(w, name, users, commits).0.published == created && ViewOf(Group(name, users)).members == {};
    } else {
      ReplayAppend(created, MembersReplaced(g, users));
    }
  }

  lemma CreatedSound(w: World, name: string, users: seq<UserId>, commits: bool)
    requires Sound(w) && CreateStep(w, name, users, commits).1.None?
    ensures Sound(CreateStep(w, name, users, commits).0)
  {
  }

  lemma PutKeeps(w: World, groupId: string, name: string, users: seq<UserId>, commits: bool)
    requires Sound(w) && LogAgrees(w)
    ensures var w' := PutStep(w, groupId, name, users, commits).0; Sound(w') && LogAgrees(w')
  {
    hide Sound, LogAgrees, DraftFits, FindGroup, ReplaceMembers;
    var found := FindGroup(w.groups, groupId);
    if found.Some? && !NameTaken(w.groups, name, found) {
      var g := found.value;
      var start := Draft(w.groups[g], []);
      FreshDraftFits(w, g);
      RenameFits(w.users, w.groups, g, w.published, start, name);
      var renamed := Rename(w.groups, g, start, name).value;
      assert [] + [GroupUpdated(g, name)] == [GroupUpdated(g, name)];
      ReplaceFits(w.users, w.groups, g, w.published, renamed, users);
      CommitKeeps(w, g, ReplaceMembers(w.users, g, renamed, users), commits);
    }
  }

  lemma StepKeeps(w: World, r: Request)
    requires Sound(w) && LogAgrees(w)
    ensures Sound(Step(w, r).0) && LogAgrees(Step(w, r).0)
  {
    match r
    case AddUser(u) =>
    case Create(name, users, commits) => CreateKeeps(w, name, users, commits);
    case Put(groupId, name, users, commits) => PutKeeps(w, groupId, name, users, commits);
    case Patch(groupId, ops, commits) =>
      var found := FindGroup(w.groups, groupId);
      if found.Some? {
        FreshDraftFits(w, found.value);
        ApplyAllFits(w.users, w.groups, found.value, w.published, Draft(w.groups[found.value], []), ops);
        CommitKeeps(w, found.value, ApplyAll(w.users, w.groups, found.value, Draft(w.groups[found.value], []), ops), commits);
      }
  }

  /** Over every run, replaying the published events from empty gives every group's name and members;
      members are distinct existing users and names are unique ignoring case. */
  lemma {:induction false} RunKeeps(requests: seq<Request>)
    ensures Sound(Run(EMPTY, requests)) && LogAgrees(Run(EMPTY, requests))
    decreases |requests|
  {
    hide Step, Sound, LogAgrees;
    if requests != [] {
      var n := |requests| - 1;
      RunKeeps(requests[..n]);
      StepKeeps(Run(EMPTY, requests[..n]), requests[n]);
    } else {
      EmptyWorld();
    }
  }

  lemma EmptyWorld()
    ensures Sound(EMPTY) && LogAgrees(EMPTY)
  {
  }
}
