/** What the published events and the PATCH parser mean for the directory. */
module DirectoryLog {
  import opened Prelude
  import opened Text
  import opened ManagerHierarchy
  import opened EnterpriseProfiles
  import opened ScimPayloads
  import opened EnterpriseUsers

  // ----- Replaying the published events

  function Effect(p: Profile, e: Event, u: UserId): Profile {
    match e
    case TextChanged(user, c, text) => if user == u then SetText(p, c, text) else p
    case ManagerChanged(user, manager) => if user == u then p.(manager := manager) else p
    case _ => p
  }

  function Replay(p: Profile, events: seq<Event>, u: UserId): Profile
    decreases |events|
  {
    if events == [] then p else Replay(Effect(p, events[0], u), events[1..], u)
  }

  lemma {:induction false} ReplayAppend(p: Profile, a: seq<Event>, b: seq<Event>, u: UserId)
    ensures Replay(p, a + b, u) == Replay(Replay(p, a, u), b, u)
    decreases |a|
  {
    if a == [] {
      assert a + b == b;
    } else {
      assert (a + b)[1..] == a[1..] + b;
      ReplayAppend(Effect(p, a[0], u), a[1..], b, u);
    }
  }

  lemma ReplayOne(p: Profile, events: seq<Event>, e: Event, u: UserId)
    ensures Replay(p, events + [e], u) == Effect(Replay(p, events, u), e, u)
  {
    ReplayAppend(p, events, [e], u);
  }

  lemma NothingRestricted(p: Profile, desired: map<Column, Option<string>>)
    ensures Profile(Overwrite(p.texts, Restrict(desired, [])), p.manager) == p
  {
    SameTexts(Overwrite(p.texts, Restrict(desired, [])), p.texts);
  }

  lemma {:induction false} TextEventsReplay(p: Profile, user: UserId, desired: map<Column, Option<string>>, cols: seq<Column>, u: UserId)
    requires Distinct(cols)
    ensures Replay(p, TextEvents(user, desired, ChangedColumns(p.texts, desired, cols)), u) ==
            if u == user then Profile(Overwrite(p.texts, Restrict(desired, cols)), p.manager) else p
    decreases |cols|
  {
    hide Overwrite, Restrict, Replay;
    if cols == [] {
      NothingRestricted(p, desired);
      ReplayNothing(p, TextEvents(user, desired, []), u);
    } else {
      var n := |cols| - 1;
      var c, fewer := cols[n], cols[..n];
      assert cols == fewer + [c];
      TextEventsReplay(p, user, desired, fewer, u);
      RestrictAppend(p, desired, fewer, c);
      var earlier := ChangedColumns(p.texts, desired, fewer);
      var before := Profile(Overwrite(p.texts, Restrict(desired, fewer)), p.manager);
      assert earlier + [] == earlier;
      if c in desired {
        if Lookup(p.texts, c) == desired[c] {
          SettingSameText(before, c);
        } else {
          var event := TextChanged(user, c, desired[c]);
          assert TextEvents(user, desired, earlier + [c]) == TextEvents(user, desired, earlier) + [event];
          ReplayOne(p, TextEvents(user, desired, earlier), event, u);
        }
      }
    }
  }

  lemma ReplayNothing(p: Profile, events: seq<Event>, u: UserId)
    requires events == []
    ensures Replay(p, events, u) == p
  {
  }

  lemma ProfileAfterWrite(profiles: Profiles, user: UserId, desired: Mutation, u: UserId)
    ensures ProfileOf(WrittenProfiles(profiles, user, desired), u) ==
            if u == user then ApplyTo(ProfileOf(profiles, user), desired) else ProfileOf(profiles, u)
  {
  }

  /** The events of one mutation turn every user's old profile into the new one. */
  lemma EventsTellTheWrite(profiles: Profiles, user: UserId, desired: Mutation, u: UserId)
    ensures Replay(ProfileOf(profiles, u), EventsFor(profiles, user, desired), u) ==
            ProfileOf(WrittenProfiles(profiles, user, desired), u)
  {
    hide Overwrite, ChangedColumns, WrittenProfiles;
    var p := ProfileOf(profiles, user);
    var q := ProfileOf(profiles, u);
    var texts := TextEvents(user, desired.texts, ChangedColumns(p.texts, desired.texts, COLUMNS));
    var moves := if ManagerChanges(p, desired) then [ManagerChanged(user, desired.manager.value)] else [];
    ColumnsDistinct();
    RestrictToAll(desired.texts);
    ProfileAfterWrite(profiles, user, desired, u);
    if u == user {
      TextEventsReplay(p, user, desired.texts, COLUMNS, u);
    } else {
      OthersUntouched(q, user, desired.texts, ChangedColumns(p.texts, desired.texts, COLUMNS), u);
    }
    ReplayAppend(q, texts, moves, u);
    var header := if user in profiles then ProfileUpdated(user) else ProfileCreated(user);
    if texts + moves != [] {
      ReplayAppend(q, [header], texts + moves, u);
    } else {
      assert EventsFor(profiles, user, desired) == [];
    }
  }

  lemma {:induction false} OthersUntouched(q: Profile, user: UserId, desired: map<Column, Option<string>>, cs: seq<Column>, u: UserId)
    requires u != user
    ensures Replay(q, TextEvents(user, desired, cs), u) == q
    decreases |cs|
  {
    if cs == [] {
    } else {
      assert TextEvents(user, desired, cs)[1..] == TextEvents(user, desired, cs[1..]);
      OthersUntouched(q, user, desired, cs[1..], u);
    }
  }

  /** The event log alone reconstructs every enterprise profile. */
  ghost predicate LogTellsProfiles(w: World) {
    forall u: UserId :: Replay(EMPTY_PROFILE, w.published, u) == ProfileOf(w.dir.profiles, u)
  }

  lemma CommitKeepsLog(w: World, d: Directory, extra: seq<Event>, user: UserId, mutation: Mutation, replace: bool, commits: bool)
    requires LogTellsProfiles(w) && d.profiles == w.dir.profiles && user in d.users
    requires forall e :: e in extra ==> e.UserProvisioned?
    ensures LogTellsProfiles(Commit(w, extra, ApplyMutation(d, user, mutation, replace), commits).0)
  {
    hide EventsFor, WrittenProfiles, Check, Desired;
    var r := ApplyMutation(d, user, mutation, replace);
    if r.Ok? && commits {
      var desired := Desired(mutation, replace);
      forall u: UserId
        ensures Replay(EMPTY_PROFILE, w.published + extra + r.value.1, u) == ProfileOf(r.value.0.profiles, u)
      {
        ReplayAppend(EMPTY_PROFILE, w.published + extra, r.value.1, u);
        ProvisioningIsSilent(w, extra, u);
        EventsTellTheWrite(d.profiles, user, desired, u);
      }
    }
  }

  lemma ProvisioningIsSilent(w: World, extra: seq<Event>, u: UserId)
    requires forall e :: e in extra ==> e.UserProvisioned?
    ensures Replay(EMPTY_PROFILE, w.published + extra, u) == Replay(EMPTY_PROFILE, w.published, u)
  {
    ReplayAppend(EMPTY_PROFILE, w.published, extra, u);
    SilentReplay(Replay(EMPTY_PROFILE, w.published, u), extra, u);
  }

  lemma {:induction false} SilentReplay(p: Profile, extra: seq<Event>, u: UserId)
    requires forall e :: e in extra ==> e.UserProvisioned?
    ensures Replay(p, extra, u) == p
    decreases |extra|
  {
    if extra == [] {
    } else {
      assert extra[0] in extra;
      SilentReplay(p, extra[1..], u);
    }
  }

  lemma CommitNothingKeepsLog(w: World, d: Directory, extra: seq<Event>, commits: bool)
    requires LogTellsProfiles(w) && d.profiles == w.dir.profiles
    requires forall e :: e in extra ==> e.UserProvisioned?
    ensures LogTellsProfiles(Commit(w, extra, Ok((d, [])), commits).0)
  {
    assert w.published + extra + [] == w.published + extra;
    forall u: UserId
      ensures Replay(EMPTY_PROFILE, w.published + extra, u) == ProfileOf(d.profiles, u)
    {
      ProvisioningIsSilent(w, extra, u);
    }
  }

  lemma StepKeepsLog(w: World, request: Request, rule: EmailRule)
    requires LogTellsProfiles(w)
    ensures LogTellsProfiles(Step(w, request, rule).0)
  {
    hide LogTellsProfiles, ApplyMutation, Commit, ParseUserPayload, ParsePatch, FindUser, UserNameTaken;
    match request
    case PostUser(user, commits) =>
      if Address(user.email, rule).Some? {
        CommitNothingKeepsLog(w, InsertUser(w.dir, user.(email := Address(user.email, rule).value)), [], commits);
      }
    case Post(payload, commits) =>
      var data := ParseUserPayload(payload, rule);
      if data.Ok? {
        var email := Lower(data.value.userName);
        var d := InsertUser(w.dir, User(email, data.value.displayName, DEFAULT_DEPARTMENT, data.value.active));
        UpdateKeepsLog(w, d, [UserProvisioned(w.dir.nextId, email)], w.dir.nextId, data.value.enterprise, commits);
      }
    case Put(userId, payload, commits) =>
      var data := ParseUserPayload(payload, rule);
      var found := FindUser(w.dir.users, userId);
      if data.Ok? && found.Some? {
        var row := w.dir.users[found.value].(email := Lower(data.value.userName), name := data.value.displayName, active := data.value.active);
        var d := w.dir.(users := w.dir.users[found.value := row]);
        if data.value.enterprise.Some? {
          CommitKeepsLog(w, d, [], found.value, data.value.enterprise.value, true, commits);
        } else {
          CommitKeepsLog(w, d, [], found.value, CLEAR_ALL, false, commits);
          CommitNothingKeepsLog(w, d, [], commits);
        }
      }
    case Patch(userId, payload, commits) =>
      var found := FindUser(w.dir.users, userId);
      if found.Some? {
        var patch := ParsePatch(payload, Context(w.dir.users[found.value].email, rule));
        if patch.Ok? {
          var row := PatchedRow(w.dir.users[found.value], patch.value.user);
          UpdateKeepsLog(w, w.dir.(users := w.dir.users[found.value := row]), [], found.value, patch.value.enterprise, commits);
        }
      }
  }

  lemma UpdateKeepsLog(w: World, d: Directory, extra: seq<Event>, user: UserId, mutation: Option<Mutation>, commits: bool)
    requires LogTellsProfiles(w) && d.profiles == w.dir.profiles && user in d.users
    requires forall e :: e in extra ==> e.UserProvisioned?
    ensures LogTellsProfiles(Commit(w, extra, UpdateProfile(d, user, mutation), commits).0)
  {
    hide LogTellsProfiles, ApplyMutation, Commit;
    if mutation.Some? {
      CommitKeepsLog(w, d, extra, user, mutation.value, false, commits);
    } else {
      CommitNothingKeepsLog(w, d, extra, commits);
    }
  }

  /** Over every run, replaying the published events from empty gives every enterprise profile. */
  lemma {:induction false} RunKeepsLog(w: World, requests: seq<Request>, rule: EmailRule)
    requires LogTellsProfiles(w)
    ensures LogTellsProfiles(Run(w, requests, rule))
    decreases |requests|
  {
    if requests == [] {
    } else {
      StepKeepsLog(w, requests[0], rule);
      RunKeepsLog(Step(w, requests[0], rule).0, requests[1..], rule);
    }
  }

  /** From empty tables the published events alone always give every enterprise profile. */
  lemma ReachedLog(requests: seq<Request>, rule: EmailRule)
    ensures LogTellsProfiles(Run(START, requests, rule))
  {
    hide Run;
    RunKeepsLog(START, requests, rule);
  }

  // ----- PATCH requests end to end

  function AttributesOf(d: Directory, u: UserId): Attributes
    requires u in d.users
  {
    Attributes(d.users[u].email, d.users[u].name, d.users[u].active, ProfileOf(d.profiles, u))
  }

  /** An accepted PATCH leaves the user's attributes as if its operations had been carried out one
      after another, and leaves every other user alone. */
  lemma PatchMeansSequence(w: World, userId: string, payload: Json, rule: EmailRule, commits: bool)
    ensures var (after, fault) := PatchStep(w, userId, payload, rule, commits);
            if fault.Some? then after == w
            else
              var found := FindUser(w.dir.users, userId);
              found.Some? && after.dir.users.Keys == w.dir.users.Keys && OperationsOf(payload).Ok? &&
              var ctx := Context(w.dir.users[found.value].email, rule);
              && Ok(AttributesOf(after.dir, found.value)) ==
                 PerformOperations(AttributesOf(w.dir, found.value), OperationsOf(payload).value, ctx)
              && forall v :: v in w.dir.users && v != found.value ==>
                   after.dir.users[v] == w.dir.users[v] && ProfileOf(after.dir.profiles, v) == ProfileOf(w.dir.profiles, v)
  {
    hide FoldOperations, PerformOperations, Check, EventsFor, WrittenProfiles, UserNameTaken, ApplyTo, OperationsOf, FindUser, NewDepartment;
    var (after, fault) := PatchStep(w, userId, payload, rule, commits);
    if fault.None? {
      var u := FindUser(w.dir.users, userId).value;
      var ctx := Context(w.dir.users[u].email, rule);
      var a := AttributesOf(w.dir, u);
      var patch := FoldOperations(EMPTY_PATCH, OperationsOf(payload).value, ctx);
      assert ApplyPatch(a, EMPTY_PATCH) == a;
      FoldMeansSequence(a, EMPTY_PATCH, OperationsOf(payload).value, ctx);
      if patch.value.enterprise.Some? {
        forall v {
          ProfileAfterWrite(w.dir.profiles, u, patch.value.enterprise.value, v);
        }
      }
    }
  }
}
