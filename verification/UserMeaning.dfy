/** What the user endpoints store, publish and refuse, read off the payload's own members and the rows. */
module UserMeaning {
  import opened Prelude
  import opened Text
  import opened ManagerHierarchy
  import opened EnterpriseProfiles
  import opened ScimPayloads
  import opened EnterpriseUsers
  import opened DirectoryLog
  import opened PatchMeaning
  import ScimRoundTrip

  // ----- Employee numbers

  /** Another user's stored number is the same, ignoring case. */
  predicate NumberInUse(profiles: Profiles, user: UserId, number: string) {
    exists v :: v in profiles && v != user && EmployeeNumber in profiles[v].texts
             && Lower(profiles[v].texts[EmployeeNumber]) == Lower(number)
  }

  /** In every state reached from empty tables the stored employee numbers of two users differ, in
      whatever case they are written. */
  lemma NumbersDiffer(requests: seq<Request>, rule: EmailRule, u: UserId, v: UserId)
    requires var profiles := Run(START, requests, rule).dir.profiles;
             u != v && u in profiles && v in profiles
             && EmployeeNumber in profiles[u].texts && EmployeeNumber in profiles[v].texts
    ensures var profiles := Run(START, requests, rule).dir.profiles;
            Lower(profiles[u].texts[EmployeeNumber]) != Lower(profiles[v].texts[EmployeeNumber])
  {
    hide Run, Lower, Accounts, Acyclic, StoredTexts, References;
    ReachedInv(requests, rule);
    var profiles := Run(START, requests, rule).dir.profiles;
    assert !HasEmployeeNumber(profiles, v, profiles[u].texts[EmployeeNumber]);
  }

  /** A duplicate is reported exactly when the number asked for is in use by another user. */
  lemma DuplicateNumberIff(users: Users, profiles: Profiles, user: UserId, desired: Mutation)
    ensures Check(users, profiles, user, desired) == Some(DuplicateEmployeeNumber) <==>
      && EmployeeNumber in desired.texts && desired.texts[EmployeeNumber].Some?
      && NumberInUse(profiles, user, desired.texts[EmployeeNumber].value)
  {
    hide Lower, ManagersOf, Manages;
  }

  // ----- Managers

  /** A path of stored managers from `u` up to `v`. */
  ghost predicate ManagerPath(users: Users, profiles: Profiles, path: seq<UserId>, u: UserId, v: UserId) {
    && |path| >= 2 && path[0] == u && path[|path| - 1] == v
    && forall i :: 0 <= i < |path| - 1 ==>
         path[i] in users && path[i] in profiles && profiles[path[i]].manager == Some(path[i + 1])
  }

  lemma {:induction false} PathFromChain(users: Users, profiles: Profiles, u: UserId, n: nat, v: UserId) returns (path: seq<UserId>)
    requires n > 0 && Up(ManagersOf(users, profiles), u, n) == Some(v)
    ensures ManagerPath(users, profiles, path, u, v)
    decreases n
  {
    var m := ManagersOf(users, profiles);
    assert u in m && profiles[u].manager == Some(m[u]);
    if n == 1 {
      assert Up(m, m[u], 0) == Some(m[u]);
      path := [u, v];
    } else {
      var rest := PathFromChain(users, profiles, m[u], n - 1, v);
      path := [u] + rest;
      forall i | 0 <= i < |path| - 1
        ensures path[i] in users && path[i] in profiles && profiles[path[i]].manager == Some(path[i + 1])
      {
        assert i > 0 ==> path[i] == rest[i - 1] && path[i + 1] == rest[i];
      }
    }
  }

  lemma {:induction false} ChainFromPath(users: Users, profiles: Profiles, path: seq<UserId>, u: UserId, v: UserId)
    requires ManagerPath(users, profiles, path, u, v)
    ensures Up(ManagersOf(users, profiles), u, |path| - 1) == Some(v)
    decreases |path|
  {
    var m := ManagersOf(users, profiles);
    assert path[0] in users && path[0] in profiles && profiles[path[0]].manager == Some(path[0 + 1]);
    assert u in m && m[u] == path[1];
    if |path| == 2 {
      assert Up(m, m[u], 0) == Some(v);
    } else {
      var rest := path[1..];
      forall i | 0 <= i < |rest| - 1
        ensures rest[i] in users && rest[i] in profiles && profiles[rest[i]].manager == Some(rest[i + 1])
      {
        assert rest[i] == path[i + 1] && rest[i + 1] == path[i + 2];
      }
      ChainFromPath(users, profiles, rest, m[u], v);
    }
  }

  /** The manager is absent, or another existing user above whom the user does not stand. */
  ghost predicate ManagerAllowed(users: Users, profiles: Profiles, user: UserId, manager: Option<UserId>) {
    manager.Some? ==>
      manager.value in users && manager.value != user && !exists path :: ManagerPath(users, profiles, path, manager.value, user)
  }

  lemma AllowedIff(users: Users, profiles: Profiles, user: UserId, manager: Option<UserId>)
    ensures ManagerVerdict(users, profiles, user, manager).None? <==> ManagerAllowed(users, profiles, user, manager)
  {
    if manager.Some? {
      var m := ManagersOf(users, profiles);
      if Manages(m, user, manager.value) {
        var n: nat :| n > 0 && Up(m, manager.value, n) == Some(user);
        var path := PathFromChain(users, profiles, manager.value, n, user);
      }
      if path :| ManagerPath(users, profiles, path, manager.value, user) {
        ChainFromPath(users, profiles, path, manager.value, user);
        assert Manages(m, user, manager.value);
      }
    }
  }

  /** Which of the three refusals is reported. */
  lemma ManagerFaults(users: Users, profiles: Profiles, user: UserId, manager: UserId)
    ensures var fault := ManagerVerdict(users, profiles, user, Some(manager));
            && (fault == Some(UnknownManager) <==> manager !in users)
            && (fault == Some(SelfManager) <==> manager in users && manager == user)
            && (fault == Some(ManagerCycle) <==>
                  manager in users && manager != user && exists path :: ManagerPath(users, profiles, path, manager, user))
  {
    AllowedIff(users, profiles, user, Some(manager));
  }

  // ----- What one accepted mutation does

  /** The user's department follows a changed profile department; a cleared one falls back. */
  predicate DepartmentFollows(before: Profile, after: Profile, earlier: string, later: string) {
    var b, a := Lookup(before.texts, Department), Lookup(after.texts, Department);
    later == if a == b then earlier else if a.Some? && a.value != "" then a.value else "SCIM Provisioned"
  }

  /** The events report exactly the difference: nothing for none, else the row event first, then one
      event per changed column and one for a changed manager. */
  ghost predicate EventsReport(user: UserId, existed: bool, before: Profile, after: Profile, events: seq<Event>) {
    && (before == after ==> events == [])
    && (before != after ==> events != [] && events[0] == if existed then ProfileUpdated(user) else ProfileCreated(user))
    && (forall c, text :: TextChanged(user, c, text) in events <==>
          Lookup(before.texts, c) != Lookup(after.texts, c) && text == Lookup(after.texts, c))
    && (forall m :: ManagerChanged(user, m) in events <==> before.manager != after.manager && m == after.manager)
  }

  /** The change list reports the same. */
  ghost predicate ChangesReport(existed: bool, before: Profile, after: Profile, changes: seq<Change>) {
    && (before == after ==> changes == [])
    && (before != after ==> changes != [] && changes[0] == if existed then RowUpdated else RowCreated)
    && (forall c :: ColumnChanged(c) in changes <==> Lookup(before.texts, c) != Lookup(after.texts, c))
    && (ManagerMoved in changes <==> before.manager != after.manager)
  }

  lemma {:induction false} ChangedMembers(texts: map<Column, string>, desired: map<Column, Option<string>>, cols: seq<Column>)
    ensures forall c :: c in ChangedColumns(texts, desired, cols) <==> c in cols && c in desired && Lookup(texts, c) != desired[c]
    decreases |cols|
  {
    if cols == [] {
    } else {
      var n := |cols| - 1;
      ChangedMembers(texts, desired, cols[..n]);
      assert cols == cols[..n] + [cols[n]];
    }
  }

  lemma ReportsAreRight(profiles: Profiles, user: UserId, desired: Mutation)
    ensures var p := ProfileOf(profiles, user);
            && EventsReport(user, user in profiles, p, ApplyTo(p, desired), EventsFor(profiles, user, desired))
            && ChangesReport(user in profiles, p, ApplyTo(p, desired), ChangesFor(profiles, user, desired))
  {
    hide Overwrite, ChangedColumns;
    var p := ProfileOf(profiles, user);
    var q := ApplyTo(p, desired);
    var cs := ChangedColumns(p.texts, desired.texts, COLUMNS);
    NoChangeIffSame(p, desired);
    ChangedMembers(p.texts, desired.texts, COLUMNS);
    forall c
      ensures c in cs <==> Lookup(p.texts, c) != Lookup(q.texts, c)
      ensures c in cs ==> c in desired.texts && desired.texts[c] == Lookup(q.texts, c)
    {
      EveryColumnListed(c);
      OverwriteLookup(p.texts, desired.texts, c);
    }
    ListedEvents(user, desired, cs);
  }

  lemma ListedEvents(user: UserId, desired: Mutation, cs: seq<Column>)
    ensures forall c, text :: TextChanged(user, c, text) in TextEvents(user, desired.texts, cs) <==>
      c in cs && text == GetOr(desired.texts, c, None)
    ensures forall c :: ColumnChanged(c) in TextChanges(cs) <==> c in cs
    ensures forall e :: e in TextEvents(user, desired.texts, cs) ==> e.TextChanged?
    ensures forall e :: e in TextChanges(cs) ==> e.ColumnChanged?
  {
    forall c | c in cs
      ensures TextChanged(user, c, GetOr(desired.texts, c, None)) in TextEvents(user, desired.texts, cs) && ColumnChanged(c) in TextChanges(cs)
    {
      var i :| 0 <= i < |cs| && cs[i] == c;
      assert TextEvents(user, desired.texts, cs)[i] == TextChanged(user, c, GetOr(desired.texts, c, None));
      assert TextChanges(cs)[i] == ColumnChanged(c);
    }
  }

  /** An accepted mutation: the desired values are stored, the department follows, the events report
      the difference, and nothing else changes. */
  ghost predicate Stores(d: Directory, d': Directory, user: UserId, after: Profile, events: seq<Event>)
    requires user in d.users
  {
    && d'.nextId == d.nextId && d'.users.Keys == d.users.Keys
    && ProfileOf(d'.profiles, user) == after
    && d'.users[user] == d.users[user].(department := d'.users[user].department)
    && DepartmentFollows(ProfileOf(d.profiles, user), after, d.users[user].department, d'.users[user].department)
    && EventsReport(user, user in d.profiles, ProfileOf(d.profiles, user), after, events)
    && (forall v :: v != user ==> ProfileOf(d'.profiles, v) == ProfileOf(d.profiles, v))
    && (forall v :: v in d.users && v != user ==> d'.users[v] == d.users[v])
  }

  lemma MutationStores(d: Directory, user: UserId, mutation: Mutation, replace: bool)
    requires user in d.users && ApplyMutation(d, user, mutation, replace).Ok?
    ensures var r := ApplyMutation(d, user, mutation, replace).value;
            Stores(d, r.0, user, ApplyTo(ProfileOf(d.profiles, user), Desired(mutation, replace)), r.1)
  {
    hide Overwrite, EventsFor, Check, Desired, WrittenProfiles, EventsReport;
    var desired := Desired(mutation, replace);
    ReportsAreRight(d.profiles, user, desired);
    OverwriteLookup(ProfileOf(d.profiles, user).texts, desired.texts, Department);
    forall v { ProfileAfterWrite(d.profiles, user, desired, v); }
  }

  /** A mutation is accepted exactly when the number and the manager that it sets are free and allowed. */
  lemma MutationAccepted(d: Directory, user: UserId, desired: Mutation)
    ensures Check(d.users, d.profiles, user, desired).None? <==>
      && (EmployeeNumber in desired.texts && desired.texts[EmployeeNumber].Some? ==>
            !NumberInUse(d.profiles, user, desired.texts[EmployeeNumber].value))
      && (desired.manager.Some? ==> ManagerAllowed(d.users, d.profiles, user, desired.manager.value))
  {
    hide ManagerVerdict, ManagerAllowed, Lower;
    DuplicateNumberIff(d.users, d.profiles, user, desired);
    if desired.manager.Some? {
      AllowedIff(d.users, d.profiles, user, desired.manager.value);
    }
  }

  // ----- Payloads of create and replace

  ghost predicate ReadsName(fields: Fields, name: string) {
    var display := Get(fields, "displayName");
    if display.Some? && display.value != Null then TextValue(display) && name == Strip(display.value.s)
    else
      && Get(fields, "name").Some? && Get(fields, "name").value.Obj?
      && var formatted := Get(Get(fields, "name").value.fields, "formatted");
         TextValue(formatted) && name == Strip(formatted.value.s)
  }

  /** The core attributes that a payload stands for. */
  ghost predicate ReadsCore(fields: Fields, rule: EmailRule, email: string, name: string, active: bool) {
    && UserNameValue(Get(fields, "userName"), rule) && email == Lower(rule(Strip(Get(fields, "userName").value.s)).value)
    && ReadsName(fields, name)
    && (match Get(fields, "active")
        case None => active
        case Some(v) => v == Bool(active))
  }

  /** The profile that a payload's extension makes of an empty one; none sent reads as all null. */
  ghost predicate ReadsProfile(fields: Fields, after: Profile) {
    match Get(fields, SCHEMA)
    case None => after == Profile(map[], None)
    case Some(v) => v.Obj? && ExtensionSets(v.fields, Profile(map[], None), after)
  }

  lemma NameReading(fields: Fields, name: string, rule: EmailRule)
    ensures var display := if GetOrNull(fields, "displayName") != Null then ParseDisplayName(GetOrNull(fields, "displayName"))
                           else if GetOrNull(fields, "name").Obj? && GetOrNull(GetOrNull(fields, "name").fields, "formatted") != Null
                           then ParseDisplayName(GetOrNull(GetOrNull(fields, "name").fields, "formatted"))
                           else Err(InvalidValue);
            display == Ok(name) <==> ReadsName(fields, name)
  {
    hide Strip, Get;
  }

  lemma ProfileIsDetermined(fields: Fields, after: Profile, after': Profile)
    requires ReadsProfile(fields, after) && ReadsProfile(fields, after')
    ensures after == after'
  {
    hide Strip, Get, ReadsAs;
    if Get(fields, SCHEMA).Some? {
      var ext := Get(fields, SCHEMA).value.fields;
      forall c ensures Lookup(after.texts, c) == Lookup(after'.texts, c) {
        assert Get(ext, MemberName(c)).None? || Get(ext, MemberName(c)).Some?;
      }
      SameTexts(after.texts, after'.texts);
      if Get(ext, "manager").Some? {
        ManagerReading(Get(ext, "manager").value, after.manager);
        ManagerReading(Get(ext, "manager").value, after'.manager);
      }
    }
  }

  /** The parser accepts exactly the payloads that stand for something, and reads just that. */
  lemma PayloadMeaning(fields: Fields, rule: EmailRule, email: string, name: string, active: bool, after: Profile)
    requires ReadsCore(fields, rule, email, name, active) && ReadsProfile(fields, after)
    ensures var data := ParseUserPayload(Obj(fields), rule);
            && data.Ok? && data.value.userName == email && data.value.displayName == name && data.value.active == active
            && (data.value.enterprise.None? <==> Get(fields, SCHEMA).None?)
            && (data.value.enterprise.Some? ==> ApplyTo(EMPTY_PROFILE, data.value.enterprise.value) == after)
  {
    hide Strip, Get, Lower, ReadsName, ExtensionSets, ApplyTo, Accepted, ParseDisplayName, ParseExtension;
    SchemaName();
    NameReading(fields, name, rule);
    if Get(fields, SCHEMA).Some? {
      var ext := Get(fields, SCHEMA).value.fields;
      ExtensionMeaning(ext, EMPTY_PROFILE);
      if ParseExtension(Obj(ext)).Ok? {
        ProfileIsDetermined(fields, after, ApplyTo(EMPTY_PROFILE, ParseExtension(Obj(ext)).value));
      }
    }
  }

  lemma UnreadablePayload(payload: Json, rule: EmailRule)
    ensures ParseUserPayload(payload, rule).Err? <==>
      !(payload.Obj? && exists email, name, active, after ::
          ReadsCore(payload.fields, rule, email, name, active) && ReadsProfile(payload.fields, after))
  {
    hide Strip, Get, Lower, ReadsName, ExtensionSets, ApplyTo, Accepted, ParseDisplayName, ParseExtension;
    SchemaName();
    var data := ParseUserPayload(payload, rule);
    if data.Ok? {
      var fields := payload.fields;
      NameReading(fields, data.value.displayName, rule);
      assert ReadsCore(fields, rule, data.value.userName, data.value.displayName, data.value.active);
      if Get(fields, SCHEMA).Some? {
        var v := Get(fields, SCHEMA).value;
        NotAnObject(v);
        ExtensionMeaning(v.fields, EMPTY_PROFILE);
        assert ReadsProfile(fields, ApplyTo(EMPTY_PROFILE, ParseExtension(v).value));
      } else {
        assert ReadsProfile(fields, EMPTY_PROFILE);
      }
    }
    if payload.Obj? {
      forall email, name, active, after | ReadsCore(payload.fields, rule, email, name, active) && ReadsProfile(payload.fields, after)
        ensures data.Ok?
      {
        PayloadMeaning(payload.fields, rule, email, name, active, after);
      }
    }
  }

  lemma NotAnObject(v: Json)
    ensures !v.Obj? ==> ParseExtension(v).Err?
  {
  }

  // ----- The three requests

  /** No other user has the address. */
  predicate EmailFree(users: Users, user: UserId, email: string) {
    forall v :: v in users && v != user ==> Lower(users[v].email) != email
  }

  /** The stored profile would clash with nothing. */
  ghost predicate ProfileFree(users: Users, profiles: Profiles, user: UserId, after: Profile) {
    && (EmployeeNumber in after.texts ==> !NumberInUse(profiles, user, after.texts[EmployeeNumber]))
    && ManagerAllowed(users, profiles, user, after.manager)
  }

  /** Replace: accepted exactly when address, number and manager are free and the commit goes through;
      then the row and the profile are what the payload says, all unsent values null. */
  lemma PutMeaning(w: World, userId: string, u: UserId, fields: Fields, email: string, name: string, active: bool, after: Profile,
                   rule: EmailRule, commits: bool)
    requires ParseInt(userId) == Some(u as int) && u >= 1 && u in w.dir.users
    requires ReadsCore(fields, rule, email, name, active) && ReadsProfile(fields, after)
    ensures var (w', fault) := PutStep(w, userId, Obj(fields), rule, commits);
            var row := w.dir.users[u].(email := email, name := name, active := active);
            && (fault == None <==> EmailFree(w.dir.users, u, email) && ProfileFree(w.dir.users, w.dir.profiles, u, after) && commits)
            && (fault == None ==>
                  && w.published <= w'.published
                  && Stores(w.dir.(users := w.dir.users[u := row]), w'.dir, u, after, w'.published[|w.published|..]))
            && (fault != None ==> w' == w)
  {
    hide Strip, Get, Lower, ReadsCore, ReadsProfile, ApplyMutation, Accepted, ParseUserPayload, Stores, ProfileFree;
    assert FindUser(w.dir.users, userId) == Some(u);
    PayloadMeaning(fields, rule, email, name, active, after);
    EmailIsLower(fields, rule, email, name, active);
    NoneSentIsEmpty(fields, after);
    var data := ParseUserPayload(Obj(fields), rule).value;
    var row := w.dir.users[u].(email := email, name := name, active := active);
    var d := w.dir.(users := w.dir.users[u := row]);
    FreeNames(w.dir.users, email, Some(u));
    ReplaceStores(d, u, data.enterprise, after);
    SameFreedom(w.dir, d, u, after);
    var r := ReplaceProfile(d, u, data.enterprise);
    if r.Ok? {
      assert w.published + [] + r.value.1 == w.published + r.value.1;
    }
  }

  lemma NoneSentIsEmpty(fields: Fields, after: Profile)
    requires ReadsProfile(fields, after)
    ensures Get(fields, SCHEMA).None? ==> after == EMPTY_PROFILE
  {
  }

  lemma EmailIsLower(fields: Fields, rule: EmailRule, email: string, name: string, active: bool)
    requires ReadsCore(fields, rule, email, name, active)
    ensures Lower(email) == email
  {
  }

  lemma FreeNames(users: Users, email: string, except: Option<UserId>)
    requires Lower(email) == email
    ensures UserNameTaken(users, email, except) <==> exists v :: v in users && Some(v) != except && Lower(users[v].email) == email
  {
  }

  lemma SameFreedom(d: Directory, d': Directory, u: UserId, after: Profile)
    requires d'.profiles == d.profiles && d'.users.Keys == d.users.Keys
    ensures ProfileFree(d'.users, d'.profiles, u, after) <==> ProfileFree(d.users, d.profiles, u, after)
  {
    forall path, v { SamePaths(d, d', path, v, u); }
  }

  lemma SamePaths(d: Directory, d': Directory, path: seq<UserId>, u: UserId, v: UserId)
    requires d'.profiles == d.profiles && d'.users.Keys == d.users.Keys
    ensures ManagerPath(d'.users, d'.profiles, path, u, v) <==> ManagerPath(d.users, d.profiles, path, u, v)
  {
    forall x ensures x in d'.users <==> x in d.users {
      assert x in d'.users.Keys <==> x in d.users.Keys;
    }
  }

  lemma ReplacedValues(p: Profile, m: Mutation)
    ensures ApplyTo(p, Desired(m, true)) == ApplyTo(EMPTY_PROFILE, m)
    ensures ApplyTo(p, Desired(CLEAR_ALL, false)) == EMPTY_PROFILE
  {
    SameTexts(Overwrite(p.texts, Desired(m, true).texts), Overwrite(map[], m.texts));
    SameTexts(Overwrite(p.texts, CLEAR_ALL.texts), map[]);
  }

  lemma EmptyIsFree(users: Users, profiles: Profiles, user: UserId)
    ensures ProfileFree(users, profiles, user, EMPTY_PROFILE)
  {
  }

  lemma UnchangedStores(d: Directory, u: UserId)
    requires u in d.users
    ensures Stores(d, d, u, ProfileOf(d.profiles, u), [])
  {
  }

  /** Desired values as a profile: set texts are the present ones. */
  lemma FreeIffAccepted(d: Directory, u: UserId, p: Profile, desired: Mutation)
    requires forall c: Column :: c in desired.texts
    requires desired.manager.Some?
    ensures ProfileFree(d.users, d.profiles, u, ApplyTo(p, desired)) <==> Check(d.users, d.profiles, u, desired).None?
  {
    hide ManagerAllowed, NumberInUse, Overwrite;
    MutationAccepted(d, u, desired);
    OverwriteLookup(p.texts, desired.texts, EmployeeNumber);
  }

  lemma ReplaceStores(d: Directory, u: UserId, m: Option<Mutation>, after: Profile)
    requires u in d.users
    requires after == if m.Some? then ApplyTo(EMPTY_PROFILE, m.value) else EMPTY_PROFILE
    ensures var r := ReplaceProfile(d, u, m);
            && (r.Ok? <==> ProfileFree(d.users, d.profiles, u, after))
            && (r.Ok? ==> Stores(d, r.value.0, u, after, r.value.1))
  {
    hide Stores, ProfileFree, ApplyTo, Check, EventsFor, WrittenProfiles, WrittenUsers;
    var p := ProfileOf(d.profiles, u);
    if m.Some? {
      ReplacedValues(p, m.value);
      FreeIffAccepted(d, u, p, Desired(m.value, true));
      if ReplaceProfile(d, u, m).Ok? {
        MutationStores(d, u, m.value, true);
      }
    } else if u in d.profiles {
      ReplacedValues(p, CLEAR_ALL);
      FreeIffAccepted(d, u, p, Desired(CLEAR_ALL, false));
      EmptyIsFree(d.users, d.profiles, u);
      if ReplaceProfile(d, u, m).Ok? {
        MutationStores(d, u, CLEAR_ALL, false);
      }
    } else {
      EmptyIsFree(d.users, d.profiles, u);
      UnchangedStores(d, u);
    }
  }

  /** Create: the new row has the next id, the fallback department and what the payload says; the
      provisioning event comes first. */
  lemma PostMeaning(w: World, fields: Fields, email: string, name: string, active: bool, after: Profile, rule: EmailRule, commits: bool)
    requires Inv(w.dir)
    requires ReadsCore(fields, rule, email, name, active) && ReadsProfile(fields, after)
    ensures var (w', fault) := PostStep(w, Obj(fields), rule, commits);
            var u := w.dir.nextId;
            var d := Directory(w.dir.users[u := User(email, name, "SCIM Provisioned", active)], w.dir.profiles, u + 1);
            && (fault == None <==> EmailFree(w.dir.users, u, email) && ProfileFree(d.users, d.profiles, u, after) && commits)
            && (fault == None ==>
                  && w.published + [UserProvisioned(u, email)] <= w'.published
                  && Stores(d, w'.dir, u, after, w'.published[|w.published| + 1..]))
            && (fault != None ==> w' == w)
  {
    PostPrepared(w, fields, email, name, active, after, rule);
    PostStepIs(w, Obj(fields), rule, commits);
    hide *;
    var u := w.dir.nextId;
    var d := Directory(w.dir.users[u := User(email, name, "SCIM Provisioned", active)], w.dir.profiles, u + 1);
    var r := UpdateProfile(d, u, ParseUserPayload(Obj(fields), rule).value.enterprise);
    if r.Ok? {
      EventsAfter(w.published, UserProvisioned(u, email), r.value.1);
    }
  }

  lemma PostPrepared(w: World, fields: Fields, email: string, name: string, active: bool, after: Profile, rule: EmailRule)
    requires Inv(w.dir)
    requires ReadsCore(fields, rule, email, name, active) && ReadsProfile(fields, after)
    ensures var data := ParseUserPayload(Obj(fields), rule);
            && data.Ok? && Lower(data.value.userName) == email && data.value.displayName == name && data.value.active == active
            && (EmailFree(w.dir.users, w.dir.nextId, email) <==> !UserNameTaken(w.dir.users, data.value.userName, None))
            && var u := w.dir.nextId;
               var d := Directory(w.dir.users[u := User(email, name, "SCIM Provisioned", active)], w.dir.profiles, u + 1);
               var r := UpdateProfile(d, u, data.value.enterprise);
               && (r.Ok? <==> ProfileFree(d.users, d.profiles, u, after))
               && (r.Ok? ==> Stores(d, r.value.0, u, after, r.value.1))
  {
    PayloadMeaning(fields, rule, email, name, active, after);
    EmailIsLower(fields, rule, email, name, active);
    NoneSentIsEmpty(fields, after);
    hide Strip, Get, Lower, ReadsCore, ReadsProfile, UpdateProfile, Accepted, ParseUserPayload, Stores, ProfileFree, Inv, ApplyTo;
    var data := ParseUserPayload(Obj(fields), rule).value;
    var u := w.dir.nextId;
    FreeNames(w.dir.users, email, None);
    InsertStores(Directory(w.dir.users[u := User(email, name, "SCIM Provisioned", active)], w.dir.profiles, u + 1), u, data.enterprise, after);
  }

  lemma EventsAfter(earlier: seq<Event>, e: Event, events: seq<Event>)
    ensures earlier + [e] <= earlier + [e] + events && (earlier + [e] + events)[|earlier| + 1..] == events
  {
  }

  lemma PostStepIs(w: World, payload: Json, rule: EmailRule, commits: bool)
    requires ParseUserPayload(payload, rule).Ok?
    ensures var data := ParseUserPayload(payload, rule).value;
            var (w', fault) := PostStep(w, payload, rule, commits);
            var u, email := w.dir.nextId, Lower(data.userName);
            var d := Directory(w.dir.users[u := User(email, data.displayName, "SCIM Provisioned", data.active)], w.dir.profiles, u + 1);
            var r := UpdateProfile(d, u, data.enterprise);
            if UserNameTaken(w.dir.users, data.userName, None) || r.Err? || !commits then w' == w && fault != None
            else fault == None && w' == World(r.value.0, w.published + [UserProvisioned(u, email)] + r.value.1)
  {
    hide UserNameTaken, ApplyMutation, ParseUserPayload, Lower;
  }

  lemma InsertStores(d: Directory, u: UserId, m: Option<Mutation>, after: Profile)
    requires u in d.users && u !in d.profiles
    requires after == if m.Some? then ApplyTo(EMPTY_PROFILE, m.value) else EMPTY_PROFILE
    ensures var r := UpdateProfile(d, u, m);
            && (r.Ok? <==> ProfileFree(d.users, d.profiles, u, after))
            && (r.Ok? ==> Stores(d, r.value.0, u, after, r.value.1))
  {
    hide Stores, ProfileFree, ApplyTo, Check, EventsFor, WrittenProfiles, WrittenUsers;
    if m.Some? {
      assert Desired(m.value, false) == m.value;
      NewValuesFree(d, u, m.value);
      if UpdateProfile(d, u, m).Ok? {
        MutationStores(d, u, m.value, false);
      }
    } else {
      EmptyIsFree(d.users, d.profiles, u);
      UnchangedStores(d, u);
    }
  }

  lemma NewValuesFree(d: Directory, u: UserId, m: Mutation)
    ensures ProfileFree(d.users, d.profiles, u, ApplyTo(EMPTY_PROFILE, m)) <==> Check(d.users, d.profiles, u, m).None?
  {
    hide ManagerAllowed, NumberInUse, Overwrite;
    MutationAccepted(d, u, m);
    OverwriteLookup(map[], m.texts, EmployeeNumber);
    NoManagerAllowed(d, u);
  }

  lemma NoManagerAllowed(d: Directory, u: UserId)
    ensures ManagerAllowed(d.users, d.profiles, u, None)
  {
  }

  /** Patch, in every reachable directory: accepted exactly when the operations can be carried out, what
      they leave is free, and the commit goes through; then the user has just those attributes. */
  lemma PatchAcceptedIff(w: World, userId: string, u: UserId, before: Fields, ops: seq<Json>, after: Fields, rule: EmailRule, commits: bool)
    requires Inv(w.dir) && ParseInt(userId) == Some(u as int) && u >= 1 && u in w.dir.users && ops != []
    requires forall i :: 0 <= i < |before| ==> before[i].0 != "Operations"
    ensures var (w', fault) := PatchStep(w, userId, Obj(before + [("Operations", Arr(ops))] + after), rule, commits);
            var outcome := PerformOperations(AttributesOf(w.dir, u), ops, Context(w.dir.users[u].email, rule));
            && (fault == None <==>
                  && outcome.Ok? && EmailFree(w.dir.users, u, outcome.value.userName)
                  && ProfileFree(w.dir.users, w.dir.profiles, u, outcome.value.profile) && commits)
            && (fault == None ==>
                  var row := w.dir.users[u].(email := outcome.value.userName, name := outcome.value.displayName, active := outcome.value.active);
                  && w.published <= w'.published
                  && Stores(w.dir.(users := w.dir.users[u := row]), w'.dir, u, outcome.value.profile, w'.published[|w.published|..]))
            && (fault != None ==> w' == w)
  {
    OperationsAreAllItems(before, ops, after);
    hide *;
    PatchOfOperations(w, userId, u, Obj(before + [("Operations", Arr(ops))] + after), ops, rule, commits);
  }

  lemma PatchOfOperations(w: World, userId: string, u: UserId, payload: Json, ops: seq<Json>, rule: EmailRule, commits: bool)
    requires Inv(w.dir) && ParseInt(userId) == Some(u as int) && u >= 1 && u in w.dir.users && OperationsOf(payload) == Ok(ops)
    ensures var (w', fault) := PatchStep(w, userId, payload, rule, commits);
            var outcome := PerformOperations(AttributesOf(w.dir, u), ops, Context(w.dir.users[u].email, rule));
            && (fault == None <==>
                  && outcome.Ok? && EmailFree(w.dir.users, u, outcome.value.userName)
                  && ProfileFree(w.dir.users, w.dir.profiles, u, outcome.value.profile) && commits)
            && (fault == None ==>
                  var row := w.dir.users[u].(email := outcome.value.userName, name := outcome.value.displayName, active := outcome.value.active);
                  && w.published <= w'.published
                  && Stores(w.dir.(users := w.dir.users[u := row]), w'.dir, u, outcome.value.profile, w'.published[|w.published|..]))
            && (fault != None ==> w' == w)
  {
    var ctx := Context(w.dir.users[u].email, rule);
    var a := AttributesOf(w.dir, u);
    FoldMeansSequence(a, EMPTY_PATCH, ops, ctx);
    FoldIsGood(EMPTY_PATCH, ops, ctx);
    var folded := FoldOperations(EMPTY_PATCH, ops, ctx);
    hide FoldOperations, PerformOperations, OperationsOf, FindUser, ApplyMutation, Accepted, Lower, Inv, Stores, ProfileFree, ApplyTo, WellFormed,
         EmailFree, UserNameTaken, PatchedRow, PatchStep, UpdateProfile;
    PatchStepIs(w, userId, u, payload, ops, rule, commits);
    if folded.Ok? {
      PatchOutcome(w.dir, u, folded.value);
    }
  }

  lemma PatchStepIs(w: World, userId: string, u: UserId, payload: Json, ops: seq<Json>, rule: EmailRule, commits: bool)
    requires ParseInt(userId) == Some(u as int) && u >= 1 && u in w.dir.users && OperationsOf(payload) == Ok(ops)
    ensures var folded := FoldOperations(EMPTY_PATCH, ops, Context(w.dir.users[u].email, rule));
            var (w', fault) := PatchStep(w, userId, payload, rule, commits);
            if folded.Err? || (folded.value.user.userName.Some? && UserNameTaken(w.dir.users, folded.value.user.userName.value, Some(u)))
            then w' == w && fault != None
            else
              var d := w.dir.(users := w.dir.users[u := PatchedRow(w.dir.users[u], folded.value.user)]);
              var r := UpdateProfile(d, u, folded.value.enterprise);
              if r.Err? || !commits then w' == w && fault != None
              else fault == None && w' == World(r.value.0, w.published + r.value.1)
  {
    hide FoldOperations, UserNameTaken, PatchedRow, UpdateProfile, OperationsOf;
    assert FindUser(w.dir.users, userId) == Some(u);
    hide FindUser;
    assert w.published + [] == w.published;
  }

  lemma PatchOutcome(d0: Directory, u: UserId, patch: UserPatch)
    requires Inv(d0) && u in d0.users
    requires patch.user.userName.Some? ==> Lower(patch.user.userName.value) == patch.user.userName.value
    ensures var left := ApplyPatch(AttributesOf(d0, u), patch);
            var row := PatchedRow(d0.users[u], patch.user);
            var d := d0.(users := d0.users[u := row]);
            var r := UpdateProfile(d, u, patch.enterprise);
            && row == d0.users[u].(email := left.userName, name := left.displayName, active := left.active)
            && (EmailFree(d0.users, u, left.userName) <==> !(patch.user.userName.Some? && UserNameTaken(d0.users, patch.user.userName.value, Some(u))))
            && (r.Ok? <==> ProfileFree(d0.users, d0.profiles, u, left.profile))
            && (r.Ok? ==> Stores(d, r.value.0, u, left.profile, r.value.1))
  {
    hide ApplyMutation, Lower, Inv, Stores, ProfileFree, ApplyTo, EmailFree, UserNameTaken;
    var d := d0.(users := d0.users[u := PatchedRow(d0.users[u], patch.user)]);
    NameFreedom(d0, u, patch.user.userName);
    PatchStores(d0, d, u, patch.enterprise);
    SameFreedom(d0, d, u, ApplyPatch(AttributesOf(d0, u), patch).profile);
  }

  /** A name that is not touched is the user's own, which is free. */
  lemma NameFreedom(d: Directory, u: UserId, userName: Option<string>)
    requires Inv(d) && u in d.users && (userName.Some? ==> Lower(userName.value) == userName.value)
    ensures var email := if userName.Some? then Lower(userName.value) else d.users[u].email;
            EmailFree(d.users, u, email) <==> !(userName.Some? && UserNameTaken(d.users, userName.value, Some(u)))
  {
    AccountsOf(d);
    if userName.Some? {
      FreeNames(d.users, userName.value, Some(u));
    }
  }

  /** Values that are not touched are the user's own, which are free. */
  lemma PatchStores(d0: Directory, d: Directory, u: UserId, m: Option<Mutation>)
    requires Inv(d0) && u in d0.users && d.profiles == d0.profiles && d.users.Keys == d0.users.Keys && u in d.users
    ensures var p := ProfileOf(d.profiles, u);
            var after := if m.Some? then ApplyTo(p, m.value) else p;
            var r := UpdateProfile(d, u, m);
            && (r.Ok? <==> ProfileFree(d.users, d.profiles, u, after))
            && (r.Ok? ==> Stores(d, r.value.0, u, after, r.value.1))
  {
    hide Stores, ProfileFree, ApplyTo, Check, EventsFor, WrittenProfiles, WrittenUsers, Inv;
    var p := ProfileOf(d.profiles, u);
    OwnProfileIsFree(d0, u);
    SameFreedom(d0, d, u, p);
    if m.Some? {
      assert Desired(m.value, false) == m.value;
      TouchedFreedom(d, u, m.value);
      if UpdateProfile(d, u, m).Ok? {
        MutationStores(d, u, m.value, false);
      }
    } else {
      UnchangedStores(d, u);
    }
  }

  lemma OwnProfileIsFree(d: Directory, u: UserId)
    requires Inv(d) && u in d.users
    ensures ProfileFree(d.users, d.profiles, u, ProfileOf(d.profiles, u))
  {
    hide Acyclic, Lower, ManagerVerdict, ManagerAllowed, ManagersOf;
    ScimRoundTrip.OwnManagerAccepted(d, u);
    AllowedIff(d.users, d.profiles, u, ProfileOf(d.profiles, u).manager);
  }

  lemma TouchedFreedom(d: Directory, u: UserId, m: Mutation)
    requires ProfileFree(d.users, d.profiles, u, ProfileOf(d.profiles, u))
    ensures ProfileFree(d.users, d.profiles, u, ApplyTo(ProfileOf(d.profiles, u), m)) <==> Check(d.users, d.profiles, u, m).None?
  {
    hide ManagerAllowed, NumberInUse, Overwrite;
    MutationAccepted(d, u, m);
    OverwriteLookup(ProfileOf(d.profiles, u).texts, m.texts, EmployeeNumber);
  }

  /** The plain endpoint: accepted exactly when the validator takes the address, name and department
      have 1 to 100 characters, nobody has the address, and the commit goes through. */
  lemma PlainPostMeaning(w: World, user: User, rule: EmailRule, commits: bool)
    requires Inv(w.dir)
    ensures var (w', fault) := PlainPostStep(w, user, rule, commits);
            && (fault == None <==>
                  && rule(user.email).Some? && 1 <= |user.name| <= 100 && 1 <= |user.department| <= 100
                  && EmailFree(w.dir.users, w.dir.nextId, Lower(rule(user.email).value)) && commits)
            && (fault == None ==> w'.published == w.published && w'.dir == Directory(
                  w.dir.users[w.dir.nextId := user.(email := Lower(rule(user.email).value))], w.dir.profiles, w.dir.nextId + 1))
            && (fault != None ==> w' == w)
  {
    AccountsOf(w.dir);
    hide Lower, Inv;
    assert w.published + [] + [] == w.published;
  }
}
