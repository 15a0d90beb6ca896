/** The user tables as the services update them: row by row, with the request undone on failure. */
module UserDirectory {
  import opened Prelude
  import opened Text
  import opened ManagerHierarchy
  import opened EnterpriseProfiles
  import opened ScimPayloads
  import opened EnterpriseUsers

  /** Events of one mutation as the service queues them: the row event goes to the front. */
  function Queued(pending: seq<Event>, events: seq<Event>): seq<Event> {
    if events == [] then pending else [events[0]] + pending + events[1..]
  }

  class Service {
    var users: Users
    var profiles: Profiles
    var nextId: UserId
    var pendingEvents: seq<Event>
    var published: seq<Event>

    function State(): World
      reads this
    {
      World(Directory(users, profiles, nextId), published)
    }

    constructor ()
      ensures State() == World(Directory(map[], map[], 1), []) && pendingEvents == []
    {
      users, profiles, nextId, pendingEvents, published := map[], map[], 1, [], [];
    }

    /** Walks up from the proposed manager, remembering the ids seen; ends on every relation,
        cyclic or not, and reports a cycle exactly when the user manages the proposed manager. */
    method ValidateManager(user: UserId, manager: Option<UserId>) returns (fault: Option<Fault>)
      ensures fault == ManagerVerdict(users, profiles, user, manager)
    {
      if manager.None? {
        return None;
      }
      if manager.value !in users {
        return Some(UnknownManager);
      }
      if manager.value == user {
        return Some(SelfManager);
      }
      ghost var m := ManagersOf(users, profiles);
      ghost var level: nat := 0;
      ghost var trail := {manager.value};
      var seen := {user};
      var current := manager.value;
      while current in profiles
        invariant current in users && Up(m, manager.value, level) == Some(current)
        invariant forall n: nat :: 0 < n <= level ==> Up(m, manager.value, n) != Some(user)
        invariant current in trail && manager.value in trail && user !in trail
        invariant forall x :: x in trail ==> x == manager.value || x in seen
        invariant forall x :: x in seen ==> x == user || (x in trail && x in users)
        invariant forall x :: x in trail && x != current && x in m ==> m[x] in trail
        decreases users.Keys + {user} - seen
      {
        var next := profiles[current].manager;
        ghost var here := current;
        if next.None? {
          ChainEnds(m, user, manager.value, level, current);
          return None;
        }
        assert m[current] == next.value;
        UpAdd(m, manager.value, level, 1);
        assert Up(m, current, 1) == Some(next.value) by { assert Up(m, next.value, 0) == Some(next.value); }
        if next.value == user {
          return Some(ManagerCycle);
        }
        if next.value in seen {
          NeverReached(m, trail, user, manager.value);
          return None;
        }
        seen := seen + {next.value};
        if next.value !in users {
          ChainEnds(m, user, manager.value, level + 1, next.value);
          return None;
        }
        current := next.value;
        level := level + 1;
        trail := trail + {current};
      }
      ChainEnds(m, user, manager.value, level, current);
      return None;
    }

    /** The checks made before anything is written: the employee number, then the manager. */
    method ValidateMutation(user: UserId, desired: Mutation) returns (fault: Option<Fault>)
      ensures fault == Check(users, profiles, user, desired)
    {
      var number := GetOr(desired.texts, EmployeeNumber, None);
      if number.Some? && EmployeeNumberTaken(profiles, user, number.value) {
        return Some(DuplicateEmployeeNumber);
      }
      if desired.manager.Some? {
        fault := ValidateManager(user, desired.manager.value);
        return;
      }
      fault := None;
    }

    /** Validates, then writes the desired columns one by one, collecting changes and events. */
    method ApplyProfileMutation(user: UserId, mutation: Mutation, replace: bool) returns (r: Result<seq<Change>, Fault>)
      requires user in users
      modifies this`users, this`profiles, this`pendingEvents
      ensures var fault := Check(old(users), old(profiles), user, Desired(mutation, replace));
              if fault.Some? then r == Err(fault.value) && users == old(users) && pendingEvents == old(pendingEvents)
              else
                && r == Ok(ChangesFor(old(profiles), user, Desired(mutation, replace)))
                && users == WrittenUsers(old(users), old(profiles), user, Desired(mutation, replace))
                && profiles == WrittenProfiles(old(profiles), user, Desired(mutation, replace))
                && pendingEvents == Queued(old(pendingEvents), EventsFor(old(profiles), user, Desired(mutation, replace)))
    {
      hide Desired, Check, ChangedColumns, Overwrite, TextChanges, TextEvents, NewDepartment, AllNull, EmployeeNumberTaken, ManagersOf;
      var desired := Desired(mutation, replace);
      var created := user !in profiles;
      if created {
        if AllNull(desired) {
          NothingToWrite(users, profiles, user, desired);
          return Ok([]);
        }
        profiles := profiles[user := EMPTY_PROFILE];
        RowCreationKeepsVerdicts(users, old(profiles), user, desired);
      }
      var fault := ValidateMutation(user, desired);
      if fault.Some? {
        return Err(fault.value);
      }
      var columns, events := WriteColumns(user, desired);
      var moved := ManagerChanges(profiles[user], desired);
      if moved {
        profiles := profiles[user := profiles[user].(manager := desired.manager.value)];
      }
      SameLength(user, desired, columns);
      var changes := TextChanges(columns) + if moved then [ManagerMoved] else [];
      events := events + if moved then [ManagerChanged(user, desired.manager.value)] else [];
      if changes == [] {
        return Ok([]);
      }
      pendingEvents := [if created then ProfileCreated(user) else ProfileUpdated(user)] + pendingEvents + events;
      r := Ok([if created then RowCreated else RowUpdated] + changes);
    }

    /** The loop over the five text columns. */
    method WriteColumns(user: UserId, desired: Mutation) returns (columns: seq<Column>, events: seq<Event>)
      requires user in users && user in profiles
      modifies this`users, this`profiles
      ensures var p := old(profiles)[user];
              && columns == ChangedColumns(p.texts, desired.texts, COLUMNS)
              && events == TextEvents(user, desired.texts, columns)
              && profiles == old(profiles)[user := Profile(Overwrite(p.texts, desired.texts), p.manager)]
              && users == old(users)[user := old(users)[user].(department := NewDepartment(old(users)[user].department, p, desired))]
    {
      hide Overwrite, Restrict, ChangedColumns, TextEvents, NewDepartment, SetText;
      ghost var p := profiles[user];
      columns, events := [], [];
      NothingWritten(p, user, desired);
      for i := 0 to |COLUMNS|
        invariant columns == ChangedColumns(p.texts, desired.texts, COLUMNS[..i])
        invariant events == TextEvents(user, desired.texts, columns)
        invariant profiles == old(profiles)[user := Profile(Overwrite(p.texts, Restrict(desired.texts, COLUMNS[..i])), p.manager)]
        invariant users == old(users)[user := old(users)[user].(department := DepartmentSoFar(old(users)[user].department, p, desired, i))]
      {
        var c := COLUMNS[i];
        AppendColumn(p, user, desired, i);
        DepartmentStep(old(users)[user].department, p, desired, i);
        if c in desired.texts && Lookup(profiles[user].texts, c) != desired.texts[c] {
          WriteColumn(user, c, desired.texts[c]);
          columns := columns + [c];
          events := events + [TextChanged(user, c, desired.texts[c])];
        }
      }
      AllWritten(p, desired);
    }

    /** Sets one column; the department is mirrored on the user row. */
    method WriteColumn(user: UserId, c: Column, text: Option<string>)
      requires user in users && user in profiles
      modifies this`users, this`profiles
      ensures profiles == old(profiles)[user := SetText(old(profiles)[user], c, text)]
      ensures users == old(users)[user := old(users)[user].(department := Mirrored(old(users)[user].department, c, text))]
    {
      profiles := profiles[user := SetText(profiles[user], c, text)];
      if c == Department {
        users := users[user := users[user].(department := if text.Some? && text.value != "" then text.value else DEFAULT_DEPARTMENT)];
      }
    }

    method Rollback(users0: Users, profiles0: Profiles, nextId0: UserId)
      modifies this
      ensures State() == World(Directory(users0, profiles0, nextId0), old(published)) && pendingEvents == []
    {
      users, profiles, nextId, pendingEvents := users0, profiles0, nextId0, [];
    }

    /** Commits and publishes, or undoes the request when the database refuses it. */
    method Finish(commits: bool, users0: Users, profiles0: Profiles, nextId0: UserId, extra: seq<Event>) returns (fault: Option<Fault>)
      modifies this
      ensures pendingEvents == []
      ensures if commits
              then fault == None && State() == World(old(State()).dir, old(published) + extra + old(pendingEvents))
              else fault == Some(DatabaseError) && State() == World(Directory(users0, profiles0, nextId0), old(published))
    {
      if !commits {
        Rollback(users0, profiles0, nextId0);
        return Some(DatabaseError);
      }
      published, pendingEvents := published + extra + pendingEvents, [];
      fault := None;
    }

    /** The plain user endpoint. */
    method CreateUser(user: User, rule: EmailRule, commits: bool) returns (fault: Option<Fault>)
      requires pendingEvents == []
      modifies this
      ensures (State(), fault) == PlainPostStep(old(State()), user, rule, commits) && pendingEvents == []
    {
      var address := Address(user.email, rule);
      if address.None? || !Between1And100(user.name) || !Between1And100(user.department) {
        return Some(BadRequest(InvalidValue));
      }
      if exists v :: v in users && users[v].email == address.value {
        return Some(DuplicateUserName);
      }
      if !commits {
        return Some(DatabaseError);
      }
      users, nextId := users[nextId := user.(email := address.value)], nextId + 1;
      assert published + [] + [] == published;
      fault := None;
    }

    method CreateScimUser(payload: Json, rule: EmailRule, commits: bool) returns (fault: Option<Fault>)
      requires pendingEvents == []
      modifies this
      ensures (State(), fault) == PostStep(old(State()), payload, rule, commits) && pendingEvents == []
    {
      hide Check, ChangedColumns, Overwrite, WrittenUsers, WrittenProfiles, EventsFor, ChangesFor, ParseUserPayload, Desired;
      var data := ParseUserPayload(payload, rule);
      if data.Err? {
        return Some(BadRequest(data.error));
      }
      if UserNameTaken(users, data.value.userName, None) {
        return Some(DuplicateUserName);
      }
      var users0, profiles0, nextId0 := users, profiles, nextId;
      var id := nextId;
      var email := Lower(data.value.userName);
      users := users[id := User(email, data.value.displayName, DEFAULT_DEPARTMENT, data.value.active)];
      nextId := nextId + 1;
      if data.value.enterprise.Some? {
        var r := ApplyProfileMutation(id, data.value.enterprise.value, false);
        if r.Err? {
          Rollback(users0, profiles0, nextId0);
          return Some(r.error);
        }
        QueuedFirst(EventsFor(profiles0, id, Desired(data.value.enterprise.value, false)));
      }
      fault := Finish(commits, users0, profiles0, nextId0, [UserProvisioned(id, email)]);
    }

    method ReplaceScimUser(userId: string, payload: Json, rule: EmailRule, commits: bool) returns (fault: Option<Fault>)
      requires pendingEvents == []
      modifies this
      ensures (State(), fault) == PutStep(old(State()), userId, payload, rule, commits) && pendingEvents == []
    {
      hide Check, ChangedColumns, Overwrite, WrittenUsers, WrittenProfiles, EventsFor, ChangesFor, ParseUserPayload, Desired, ParseInt, UserNameTaken;
      var data := ParseUserPayload(payload, rule);
      if data.Err? {
        return Some(BadRequest(data.error));
      }
      var found := FindUser(users, userId);
      if found.None? {
        return Some(NotFound);
      }
      var u := found.value;
      if UserNameTaken(users, data.value.userName, Some(u)) {
        return Some(DuplicateUserName);
      }
      var users0, profiles0, nextId0 := users, profiles, nextId;
      users := users[u := users[u].(email := Lower(data.value.userName), name := data.value.displayName, active := data.value.active)];
      if data.value.enterprise.Some? || u in profiles {
        var mutation := if data.value.enterprise.Some? then data.value.enterprise.value else CLEAR_ALL;
        var r := ApplyProfileMutation(u, mutation, data.value.enterprise.Some?);
        if r.Err? {
          Rollback(users0, profiles0, nextId0);
          return Some(r.error);
        }
        QueuedFirst(EventsFor(profiles0, u, Desired(mutation, data.value.enterprise.Some?)));
      }
      fault := Finish(commits, users0, profiles0, nextId0, []);
    }

    /** The user row's part of a PATCH: each attribute is assigned when the mutation carries it. */
    method PatchUser(u: UserId, m: UserMutation) returns (fault: Option<Fault>)
      requires u in users
      modifies this`users
      ensures if m.userName.Some? && UserNameTaken(old(users), m.userName.value, Some(u))
              then fault == Some(DuplicateUserName) && users == old(users)
              else fault == None && users == old(users)[u := PatchedRow(old(users)[u], m)]
    {
      hide Lower, UserNameTaken;
      if m.userName.Some? {
        if UserNameTaken(users, m.userName.value, Some(u)) {
          return Some(DuplicateUserName);
        }
        users := users[u := users[u].(email := Lower(m.userName.value))];
      }
      if m.displayName.Some? {
        users := users[u := users[u].(name := m.displayName.value)];
      }
      if m.active.Some? {
        users := users[u := users[u].(active := m.active.value)];
      }
      fault := None;
    }

    method PatchScimUser(userId: string, payload: Json, rule: EmailRule, commits: bool) returns (fault: Option<Fault>)
      requires pendingEvents == []
      modifies this
      ensures (State(), fault) == PatchStep(old(State()), userId, payload, rule, commits) && pendingEvents == []
    {
      hide Check, ChangedColumns, Overwrite, WrittenUsers, WrittenProfiles, EventsFor, ChangesFor, ParsePatch, Desired, ParseInt, UserNameTaken, PatchedRow;
      var found := FindUser(users, userId);
      if found.None? {
        return Some(NotFound);
      }
      var u := found.value;
      var patch := ParsePatchPayload(payload, Context(users[u].email, rule));
      if patch.Err? {
        return Some(BadRequest(patch.error));
      }
      var users0, profiles0, nextId0 := users, profiles, nextId;
      var taken := PatchUser(u, patch.value.user);
      if taken.Some? {
        return taken;
      }
      if patch.value.enterprise.Some? {
        var r := ApplyProfileMutation(u, patch.value.enterprise.value, false);
        if r.Err? {
          Rollback(users0, profiles0, nextId0);
          return Some(r.error);
        }
        QueuedFirst(EventsFor(profiles0, u, Desired(patch.value.enterprise.value, false)));
      }
      fault := Finish(commits, users0, profiles0, nextId0, []);
    }
  }

  lemma NothingWritten(p: Profile, user: UserId, desired: Mutation)
    ensures Profile(Overwrite(p.texts, Restrict(desired.texts, COLUMNS[..0])), p.manager) == p
    ensures ChangedColumns(p.texts, desired.texts, COLUMNS[..0]) == [] && TextEvents(user, desired.texts, []) == []
  {
    SameTexts(Overwrite(p.texts, Restrict(desired.texts, COLUMNS[..0])), p.texts);
  }

  lemma AllWritten(p: Profile, desired: Mutation)
    ensures COLUMNS[..|COLUMNS|] == COLUMNS && Restrict(desired.texts, COLUMNS) == desired.texts
    ensures forall d :: DepartmentSoFar(d, p, desired, |COLUMNS|) == NewDepartment(d, p, desired)
  {
    EveryColumnListed(Department);
    RestrictToAll(desired.texts);
    assert COLUMNS[..|COLUMNS|] == COLUMNS;
  }

  function Mirrored(current: string, c: Column, text: Option<string>): string {
    if c != Department then current
    else if text.Some? && text.value != "" then text.value else DEFAULT_DEPARTMENT
  }

  /** The user's department once the first `i` columns have been handled. */
  function DepartmentSoFar(current: string, p: Profile, desired: Mutation, i: nat): string
    requires i <= |COLUMNS|
  {
    if Department in COLUMNS[..i] then NewDepartment(current, p, desired) else current
  }

  lemma DepartmentStep(current: string, p: Profile, desired: Mutation, i: nat)
    requires i < |COLUMNS|
    ensures var c := COLUMNS[i];
            DepartmentSoFar(current, p, desired, i + 1) ==
              if c in desired.texts && Lookup(p.texts, c) != desired.texts[c]
              then Mirrored(DepartmentSoFar(current, p, desired, i), c, desired.texts[c])
              else DepartmentSoFar(current, p, desired, i)
    ensures DepartmentSoFar(current, p, desired, 0) == current
  {
    ColumnsDistinct();
    assert COLUMNS[..i + 1] == COLUMNS[..i] + [COLUMNS[i]];
  }

  lemma SameLength(user: UserId, desired: Mutation, cs: seq<Column>)
    ensures |TextChanges(cs)| == |TextEvents(user, desired.texts, cs)|
  {
  }

  /** What one more column adds to the row, the change list and the events. */
  lemma AppendColumn(p: Profile, user: UserId, desired: Mutation, i: nat)
    requires i < |COLUMNS|
    ensures var c, cols, more := COLUMNS[i], COLUMNS[..i], COLUMNS[..i + 1];
            var before := Profile(Overwrite(p.texts, Restrict(desired.texts, cols)), p.manager);
            var after := Profile(Overwrite(p.texts, Restrict(desired.texts, more)), p.manager);
            var columns := ChangedColumns(p.texts, desired.texts, cols);
            var changed := c in desired.texts && Lookup(p.texts, c) != desired.texts[c];
            && Lookup(before.texts, c) == Lookup(p.texts, c)
            && after == (if changed then SetText(before, c, desired.texts[c]) else before)
            && ChangedColumns(p.texts, desired.texts, more) == (if changed then columns + [c] else columns)
            && (changed ==> TextEvents(user, desired.texts, columns + [c]) ==
                            TextEvents(user, desired.texts, columns) + [TextChanged(user, c, desired.texts[c])])
  {
    hide Overwrite, Restrict;
    var c, cols, more := COLUMNS[i], COLUMNS[..i], COLUMNS[..i + 1];
    ColumnsDistinct();
    assert more == cols + [c] && more[..i] == cols;
    RestrictAppend(p, desired.texts, cols, c);
    var before := Profile(Overwrite(p.texts, Restrict(desired.texts, cols)), p.manager);
    SettingSameText(before, c);
    var columns := ChangedColumns(p.texts, desired.texts, cols);
    assert columns + [] == columns;
  }

  lemma QueuedFirst(events: seq<Event>)
    ensures Queued([], events) == events
  {
  }

  lemma NothingToWrite(users: Users, profiles: Profiles, user: UserId, desired: Mutation)
    requires user in users && user !in profiles && AllNull(desired)
    ensures Check(users, profiles, user, desired).None?
    ensures WrittenUsers(users, profiles, user, desired) == users
    ensures ChangesFor(profiles, user, desired) == [] && EventsFor(profiles, user, desired) == []
  {
    UnchangedColumns(map[], desired.texts, COLUMNS);
  }

  /** Inserting the empty row first does not alter what validation sees. */
  lemma RowCreationKeepsVerdicts(users: Users, profiles: Profiles, user: UserId, desired: Mutation)
    requires user !in profiles
    ensures Check(users, profiles[user := EMPTY_PROFILE], user, desired) == Check(users, profiles, user, desired)
  {
    var profiles' := profiles[user := EMPTY_PROFILE];
    assert ManagersOf(users, profiles') == ManagersOf(users, profiles);
    forall number
      ensures EmployeeNumberTaken(profiles', user, number) == EmployeeNumberTaken(profiles, user, number)
    {
      forall v | v != user
        ensures HasEmployeeNumber(profiles', v, number) == HasEmployeeNumber(profiles, v, number)
      {
      }
    }
  }

  lemma ChainEnds(m: Managers, user: UserId, start: UserId, level: nat, top: UserId)
    requires Up(m, start, level) == Some(top) && top !in m
    requires forall n: nat :: 0 < n <= level ==> Up(m, start, n) != Some(user)
    ensures !Manages(m, user, start)
  {
    forall n: nat | n > level
      ensures Up(m, start, n) == None
    {
      UpAdd(m, start, level, n - level);
    }
  }

  lemma NeverReached(m: Managers, trail: set<UserId>, user: UserId, start: UserId)
    requires start in trail && user !in trail
    requires forall x :: x in trail && x in m ==> m[x] in trail
    ensures !Manages(m, user, start)
  {
    forall n: nat
      ensures Up(m, start, n) != Some(user)
    {
      ClosedSetHolds(m, trail, start, n);
    }
  }
}
