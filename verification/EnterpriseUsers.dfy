/** The SCIM user endpoints over the user and enterprise-profile tables: manager validation,
    profile mutation, and create, replace and patch as all-or-nothing requests. */
module EnterpriseUsers {
  import opened Prelude
  import opened Text
  import opened ManagerHierarchy
  import opened EnterpriseProfiles
  import opened ScimPayloads

  datatype User = User(email: string, name: string, department: string, active: bool)

  type Users = map<UserId, User>
  type Profiles = map<UserId, Profile>

  datatype Directory = Directory(users: Users, profiles: Profiles, nextId: UserId)

  const DEFAULT_DEPARTMENT := "SCIM Provisioned"

  datatype Change = RowCreated | RowUpdated | ColumnChanged(c: Column) | ManagerMoved

  datatype Event =
    | UserProvisioned(user: UserId, email: string)
    | ProfileCreated(user: UserId)
    | ProfileUpdated(user: UserId)
    | TextChanged(user: UserId, c: Column, text: Option<string>)
    | ManagerChanged(user: UserId, manager: Option<UserId>)

  datatype Fault =
    | BadRequest(error: ScimError)
    | NotFound
    | DuplicateUserName
    | DuplicateEmployeeNumber
    | UnknownManager
    | SelfManager
    | ManagerCycle
    | DatabaseError

  // ----- What validation must decide

  function ManagersOf(users: Users, profiles: Profiles): Managers {
    map u | u in users && u in profiles && profiles[u].manager.Some? :: profiles[u].manager.value
  }

  function ProfileOf(profiles: Profiles, u: UserId): Profile {
    GetOr(profiles, u, EMPTY_PROFILE)
  }

  ghost function ManagerVerdict(users: Users, profiles: Profiles, user: UserId, manager: Option<UserId>): Option<Fault> {
    if manager.None? then None
    else if manager.value !in users then Some(UnknownManager)
    else if manager.value == user then Some(SelfManager)
    else if Manages(ManagersOf(users, profiles), user, manager.value) then Some(ManagerCycle)
    else None
  }

  predicate HasEmployeeNumber(profiles: Profiles, v: UserId, number: string) {
    v in profiles && EmployeeNumber in profiles[v].texts && Lower(profiles[v].texts[EmployeeNumber]) == Lower(number)
  }

  predicate EmployeeNumberTaken(profiles: Profiles, user: UserId, number: string) {
    exists v :: v in profiles && v != user && HasEmployeeNumber(profiles, v, number)
  }

  ghost function Check(users: Users, profiles: Profiles, user: UserId, desired: Mutation): Option<Fault> {
    var number := GetOr(desired.texts, EmployeeNumber, None);
    if number.Some? && EmployeeNumberTaken(profiles, user, number.value) then Some(DuplicateEmployeeNumber)
    else if desired.manager.Some? then ManagerVerdict(users, profiles, user, desired.manager.value)
    else None
  }

  // ----- What a mutation must write and report

  function NewDepartment(current: string, p: Profile, desired: Mutation): string {
    if Department in desired.texts && Lookup(p.texts, Department) != desired.texts[Department] then
      var v := desired.texts[Department];
      if v.Some? && v.value != "" then v.value else DEFAULT_DEPARTMENT
    else current
  }

  function WrittenUsers(users: Users, profiles: Profiles, user: UserId, desired: Mutation): Users
    requires user in users
  {
    users[user := users[user].(department := NewDepartment(users[user].department, ProfileOf(profiles, user), desired))]
  }

  function WrittenProfiles(profiles: Profiles, user: UserId, desired: Mutation): Profiles {
    if user !in profiles && AllNull(desired) then profiles
    else profiles[user := ApplyTo(ProfileOf(profiles, user), desired)]
  }

  function TextChanges(cs: seq<Column>): seq<Change> {
    seq(|cs|, i requires 0 <= i < |cs| => ColumnChanged(cs[i]))
  }

  function TextEvents(user: UserId, desired: map<Column, Option<string>>, cs: seq<Column>): seq<Event> {
    seq(|cs|, i requires 0 <= i < |cs| => TextChanged(user, cs[i], GetOr(desired, cs[i], None)))
  }

  function ChangesFor(profiles: Profiles, user: UserId, desired: Mutation): seq<Change> {
    var p := ProfileOf(profiles, user);
    var body := TextChanges(ChangedColumns(p.texts, desired.texts, COLUMNS)) +
                if ManagerChanges(p, desired) then [ManagerMoved] else [];
    if body == [] then [] else [if user in profiles then RowUpdated else RowCreated] + body
  }

  function EventsFor(profiles: Profiles, user: UserId, desired: Mutation): seq<Event> {
    var p := ProfileOf(profiles, user);
    var body := TextEvents(user, desired.texts, ChangedColumns(p.texts, desired.texts, COLUMNS)) +
                if ManagerChanges(p, desired) then [ManagerChanged(user, desired.manager.value)] else [];
    if body == [] then [] else [if user in profiles then ProfileUpdated(user) else ProfileCreated(user)] + body
  }

  // ----- Writing column by column

  function Restrict(desired: map<Column, Option<string>>, cols: seq<Column>): map<Column, Option<string>> {
    map c | c in desired && c in cols :: desired[c]
  }

  lemma ColumnsDistinct()
    ensures Distinct(COLUMNS)
  {
  }

  /** Adding one more column to the written ones sets that column when it is desired. */
  lemma RestrictAppend(p: Profile, desired: map<Column, Option<string>>, cols: seq<Column>, c: Column)
    requires c !in cols
    ensures var before := Profile(Overwrite(p.texts, Restrict(desired, cols)), p.manager);
            var after := Profile(Overwrite(p.texts, Restrict(desired, cols + [c])), p.manager);
            && Lookup(before.texts, c) == Lookup(p.texts, c)
            && after == (if c in desired then SetText(before, c, desired[c]) else before)
  {
    var before := Overwrite(p.texts, Restrict(desired, cols));
    var after := Overwrite(p.texts, Restrict(desired, cols + [c]));
    forall k
      ensures Lookup(after, k) == if k == c && c in desired then desired[c] else Lookup(before, k)
    {
      OverwriteLookup(p.texts, Restrict(desired, cols), k);
      OverwriteLookup(p.texts, Restrict(desired, cols + [c]), k);
    }
    var expected := if c in desired then SetText(Profile(before, p.manager), c, desired[c]).texts else before;
    forall k ensures Lookup(after, k) == Lookup(expected, k) {}
    SameTexts(after, expected);
  }

  lemma SettingSameText(p: Profile, c: Column)
    ensures SetText(p, c, Lookup(p.texts, c)) == p
  {
  }

  lemma RestrictToAll(desired: map<Column, Option<string>>)
    ensures Restrict(desired, COLUMNS) == desired
  {
    forall c: Column ensures c in COLUMNS {
      EveryColumnListed(c);
    }
  }

  // ----- Requests as steps over the tables and the published events

  datatype World = World(dir: Directory, published: seq<Event>)

  /** `commits` is false when the database refuses the transaction, which undoes the whole request. */
  datatype Request =
    | PostUser(user: User, commits: bool)                        // the plain user endpoint
    | Post(payload: Json, commits: bool)                         // the SCIM endpoints
    | Put(userId: string, payload: Json, commits: bool)
    | Patch(userId: string, payload: Json, commits: bool)

  type Outcome = (World, Option<Fault>)

  ghost function ApplyMutation(d: Directory, user: UserId, mutation: Mutation, replace: bool):
    Result<(Directory, seq<Event>), Fault>
    requires user in d.users
  {
    var desired := Desired(mutation, replace);
    var fault := Check(d.users, d.profiles, user, desired);
    if fault.Some? then Err(fault.value)
    else Ok((d.(users := WrittenUsers(d.users, d.profiles, user, desired),
                profiles := WrittenProfiles(d.profiles, user, desired)),
             EventsFor(d.profiles, user, desired)))
  }

  ghost function UpdateProfile(d: Directory, user: UserId, mutation: Option<Mutation>): Result<(Directory, seq<Event>), Fault>
    requires user in d.users
  {
    if mutation.None? then Ok((d, [])) else ApplyMutation(d, user, mutation.value, false)
  }

  ghost function ReplaceProfile(d: Directory, user: UserId, mutation: Option<Mutation>): Result<(Directory, seq<Event>), Fault>
    requires user in d.users
  {
    if mutation.Some? then ApplyMutation(d, user, mutation.value, true)
    else if user in d.profiles then ApplyMutation(d, user, CLEAR_ALL, false)
    else Ok((d, []))
  }

  /** The change list that replacing a profile reports. */
  function ReplaceChanges(profiles: Profiles, user: UserId, mutation: Option<Mutation>): seq<Change> {
    if mutation.Some? then ChangesFor(profiles, user, Desired(mutation.value, true))
    else if user in profiles then ChangesFor(profiles, user, Desired(CLEAR_ALL, false))
    else []
  }

  function FindUser(users: Users, userId: string): (r: Option<UserId>)
    ensures forall u: UserId :: r == Some(u) <==> u >= 1 && u in users && ParseInt(userId) == Some(u as int)
  {
    var id := ParseInt(userId);
    if id.None? || id.value < 1 || id.value !in users then None else Some(id.value)
  }

  predicate UserNameTaken(users: Users, userName: string, except: Option<UserId>) {
    exists v :: v in users && Some(v) != except && Lower(users[v].email) == Lower(userName)
  }

  ghost function Commit(w: World, extra: seq<Event>, applied: Result<(Directory, seq<Event>), Fault>, commits: bool): Outcome {
    if applied.Err? then (w, Some(applied.error))
    else if !commits then (w, Some(DatabaseError))
    else (World(applied.value.0, w.published + extra + applied.value.1), None)
  }

  function InsertUser(d: Directory, user: User): Directory {
    d.(users := d.users[d.nextId := user], nextId := d.nextId + 1)
  }

  ghost function PostStep(w: World, payload: Json, rule: EmailRule, commits: bool): Outcome {
    var data := ParseUserPayload(payload, rule);
    if data.Err? then (w, Some(BadRequest(data.error)))
    else if UserNameTaken(w.dir.users, data.value.userName, None) then (w, Some(DuplicateUserName))
    else
      var email := Lower(data.value.userName);
      var d := InsertUser(w.dir, User(email, data.value.displayName, DEFAULT_DEPARTMENT, data.value.active));
      Commit(w, [UserProvisioned(w.dir.nextId, email)], UpdateProfile(d, w.dir.nextId, data.value.enterprise), commits)
  }

  ghost function PutStep(w: World, userId: string, payload: Json, rule: EmailRule, commits: bool): Outcome {
    var data := ParseUserPayload(payload, rule);
    var found := FindUser(w.dir.users, userId);
    if data.Err? then (w, Some(BadRequest(data.error)))
    else if found.None? then (w, Some(NotFound))
    else if UserNameTaken(w.dir.users, data.value.userName, found) then (w, Some(DuplicateUserName))
    else
      var u := found.value;
      var row := w.dir.users[u].(email := Lower(data.value.userName), name := data.value.displayName, active := data.value.active);
      Commit(w, [], ReplaceProfile(w.dir.(users := w.dir.users[u := row]), u, data.value.enterprise), commits)
  }

  function PatchedRow(row: User, m: UserMutation): User {
    row.(email := if m.userName.Some? then Lower(m.userName.value) else row.email,
         name := if m.displayName.Some? then m.displayName.value else row.name,
         active := if m.active.Some? then m.active.value else row.active)
  }

  ghost function PatchStep(w: World, userId: string, payload: Json, rule: EmailRule, commits: bool): Outcome {
    var found := FindUser(w.dir.users, userId);
    if found.None? then (w, Some(NotFound))
    else
      var u := found.value;
      var patch := ParsePatch(payload, Context(w.dir.users[u].email, rule));
      if patch.Err? then (w, Some(BadRequest(patch.error)))
      else if patch.value.user.userName.Some? && UserNameTaken(w.dir.users, patch.value.user.userName.value, found)
      then (w, Some(DuplicateUserName))
      else
        var row := PatchedRow(w.dir.users[u], patch.value.user);
        Commit(w, [], UpdateProfile(w.dir.(users := w.dir.users[u := row]), u, patch.value.enterprise), commits)
  }

  predicate Between1And100(s: string) {
    1 <= |s| <= 100
  }

  /** The plain endpoint checks only the lengths of name and department; it does not strip them. */
  ghost function PlainPostStep(w: World, user: User, rule: EmailRule, commits: bool): Outcome {
    var address := Address(user.email, rule);
    if address.None? || !Between1And100(user.name) || !Between1And100(user.department) then (w, Some(BadRequest(InvalidValue)))
    else if exists v :: v in w.dir.users && w.dir.users[v].email == address.value then (w, Some(DuplicateUserName))
    else Commit(w, [], Ok((InsertUser(w.dir, user.(email := address.value)), [])), commits)
  }

  ghost function Step(w: World, request: Request, rule: EmailRule): Outcome {
    match request
    case PostUser(user, commits) => PlainPostStep(w, user, rule, commits)
    case Post(payload, commits) => PostStep(w, payload, rule, commits)
    case Put(userId, payload, commits) => PutStep(w, userId, payload, rule, commits)
    case Patch(userId, payload, commits) => PatchStep(w, userId, payload, rule, commits)
  }

  ghost function Run(w: World, requests: seq<Request>, rule: EmailRule): World
    decreases |requests|
  {
    if requests == [] then w else Run(Step(w, requests[0], rule).0, requests[1..], rule)
  }

  // ----- Run invariants

  ghost predicate Accounts(d: Directory) {
    && d.nextId >= 1
    && (forall u :: u in d.users ==> 1 <= u < d.nextId && Lower(d.users[u].email) == d.users[u].email)
    && (forall u, v :: u in d.users && v in d.users && u != v ==> d.users[u].email != d.users[v].email)
  }

  ghost predicate References(users: Users, profiles: Profiles) {
    forall u :: u in profiles ==>
      u in users && (profiles[u].manager.Some? ==> profiles[u].manager.value in users)
  }

  ghost predicate StoredTexts(profiles: Profiles) {
    forall u, c :: u in profiles && c in profiles[u].texts ==> GoodText(profiles[u].texts[c])
  }

  ghost predicate UniqueNumbers(profiles: Profiles) {
    forall u, v :: u in profiles && v in profiles && u != v && EmployeeNumber in profiles[u].texts ==>
      !HasEmployeeNumber(profiles, v, profiles[u].texts[EmployeeNumber])
  }

  /** Accounts are well numbered and unique, references resolve, stored texts are good, employee
      numbers are unique ignoring case, and nobody manages themselves, directly or indirectly. */
  ghost predicate Inv(d: Directory) {
    && Accounts(d)
    && References(d.users, d.profiles)
    && StoredTexts(d.profiles)
    && UniqueNumbers(d.profiles)
    && Acyclic(ManagersOf(d.users, d.profiles))
  }

  lemma ManagersAfterWrite(users: Users, profiles: Profiles, user: UserId, desired: Mutation)
    requires user in users && References(users, profiles)
    ensures var m, m' := ManagersOf(users, profiles),
                         ManagersOf(WrittenUsers(users, profiles, user, desired), WrittenProfiles(profiles, user, desired));
            m' == if desired.manager.None? then m
                  else if desired.manager.value.None? then m - {user}
                  else m[user := desired.manager.value.value]
  {
  }

  lemma WriteKeepsHierarchy(users: Users, profiles: Profiles, user: UserId, desired: Mutation)
    requires user in users && References(users, profiles) && Acyclic(ManagersOf(users, profiles))
    requires desired.manager.Some? ==> ManagerVerdict(users, profiles, user, desired.manager.value).None?
    ensures var users', profiles' := WrittenUsers(users, profiles, user, desired), WrittenProfiles(profiles, user, desired);
            References(users', profiles') && Acyclic(ManagersOf(users', profiles'))
  {
    var m := ManagersOf(users, profiles);
    ManagersAfterWrite(users, profiles, user, desired);
    if desired.manager.Some? {
      if desired.manager.value.None? {
        ClearKeepsAcyclic(m, user);
      } else {
        AssignKeepsAcyclic(m, user, desired.manager.value.value);
      }
    }
  }

  lemma WriteKeepsTexts(profiles: Profiles, user: UserId, desired: Mutation)
    requires StoredTexts(profiles) && WellFormed(desired)
    ensures StoredTexts(WrittenProfiles(profiles, user, desired))
  {
  }

  lemma WriteKeepsNumbers(profiles: Profiles, user: UserId, desired: Mutation)
    requires UniqueNumbers(profiles)
    requires var number := GetOr(desired.texts, EmployeeNumber, None);
             number.Some? ==> !EmployeeNumberTaken(profiles, user, number.value)
    ensures UniqueNumbers(WrittenProfiles(profiles, user, desired))
  {
    var profiles' := WrittenProfiles(profiles, user, desired);
    forall u, v | u in profiles' && v in profiles' && u != v && EmployeeNumber in profiles'[u].texts
      ensures !HasEmployeeNumber(profiles', v, profiles'[u].texts[EmployeeNumber])
    {
      OverwriteLookup(ProfileOf(profiles, user).texts, desired.texts, EmployeeNumber);
      if u == user {
        assert profiles'[v] == profiles[v];
      } else if v == user {
        assert profiles'[u] == profiles[u];
        var number := GetOr(desired.texts, EmployeeNumber, None);
        assert number.Some? ==> !HasEmployeeNumber(profiles, u, number.value);
      } else {
        assert profiles'[u] == profiles[u] && profiles'[v] == profiles[v];
      }
    }
  }

  lemma DesiredWellFormed(m: Mutation, replace: bool)
    requires WellFormed(m)
    ensures WellFormed(Desired(m, replace))
  {
  }

  /** Every accepted mutation keeps the directory invariant. */
  lemma ApplyKeepsInv(d: Directory, user: UserId, mutation: Mutation, replace: bool)
    requires Inv(d) && user in d.users && WellFormed(mutation)
    ensures var r := ApplyMutation(d, user, mutation, replace); r.Ok? ==> Inv(r.value.0)
  {
    hide Acyclic, StoredTexts, UniqueNumbers, References, WellFormed, Desired, WrittenProfiles, ManagersOf, EmployeeNumberTaken, ManagerVerdict;
    var desired := Desired(mutation, replace);
    DesiredWellFormed(mutation, replace);
    if Check(d.users, d.profiles, user, desired).None? {
      WriteKeepsHierarchy(d.users, d.profiles, user, desired);
      WriteKeepsTexts(d.profiles, user, desired);
      WriteKeepsNumbers(d.profiles, user, desired);
    }
  }

  lemma RowEditKeepsInv(d: Directory, user: UserId, row: User)
    requires Inv(d) && user in d.users && Lower(row.email) == row.email
    requires row.email == d.users[user].email || !UserNameTaken(d.users, row.email, Some(user))
    ensures Inv(d.(users := d.users[user := row]))
  {
    assert ManagersOf(d.users[user := row], d.profiles) == ManagersOf(d.users, d.profiles);
  }

  lemma InsertKeepsInv(d: Directory, row: User)
    requires Inv(d) && Lower(row.email) == row.email
    requires forall v :: v in d.users ==> d.users[v].email != row.email
    ensures Inv(InsertUser(d, row))
  {
    assert ManagersOf(InsertUser(d, row).users, d.profiles) == ManagersOf(d.users, d.profiles);
  }

  lemma ClearAllWellFormed()
    ensures WellFormed(CLEAR_ALL)
  {
  }

  lemma StepKeepsInv(w: World, request: Request, rule: EmailRule)
    requires Inv(w.dir)
    ensures Inv(Step(w, request, rule).0.dir)
  {
    hide Inv, ParseUserPayload, ApplyMutation, WellFormed, ParsePatch, FindUser;
    assert forall u :: u in w.dir.users ==> Lower(w.dir.users[u].email) == w.dir.users[u].email by {
      AccountsOf(w.dir);
    }
    match request
    case PostUser(user, commits) =>
      if Step(w, request, rule).1.None? {
        var address := Address(user.email, rule).value;
        AcceptedIsLower(address, rule);
        InsertKeepsInv(w.dir, user.(email := address));
      }
    case Post(payload, commits) =>
      PostKeepsInv(w, payload, rule, commits);
    case Put(userId, payload, commits) =>
      PutKeepsInv(w, userId, payload, rule, commits);
    case Patch(userId, payload, commits) =>
      PatchKeepsInv(w, userId, payload, rule, commits);
  }

  lemma AccountsOf(d: Directory)
    requires Inv(d)
    ensures Accounts(d)
  {
  }

  lemma PostKeepsInv(w: World, payload: Json, rule: EmailRule, commits: bool)
    requires Inv(w.dir)
    ensures Inv(PostStep(w, payload, rule, commits).0.dir)
  {
    hide Inv, ApplyMutation, WellFormed, ParseUserPayload;
    var data := ParseUserPayload(payload, rule);
    if data.Ok? && !UserNameTaken(w.dir.users, data.value.userName, None) {
      AccountsOf(w.dir);
      var row := User(Lower(data.value.userName), data.value.displayName, DEFAULT_DEPARTMENT, data.value.active);
      InsertKeepsInv(w.dir, row);
      if data.value.enterprise.Some? {
        ApplyKeepsInv(InsertUser(w.dir, row), w.dir.nextId, data.value.enterprise.value, false);
      }
    }
  }

  lemma PutKeepsInv(w: World, userId: string, payload: Json, rule: EmailRule, commits: bool)
    requires Inv(w.dir)
    ensures Inv(PutStep(w, userId, payload, rule, commits).0.dir)
  {
    hide Inv, ApplyMutation, WellFormed, ParseUserPayload;
    var data := ParseUserPayload(payload, rule);
    var found := FindUser(w.dir.users, userId);
    if data.Ok? && found.Some? && !UserNameTaken(w.dir.users, data.value.userName, found) {
      var u := found.value;
      var row := w.dir.users[u].(email := Lower(data.value.userName), name := data.value.displayName, active := data.value.active);
      RowEditKeepsInv(w.dir, u, row);
      ClearAllWellFormed();
      var d := w.dir.(users := w.dir.users[u := row]);
      if data.value.enterprise.Some? {
        ApplyKeepsInv(d, u, data.value.enterprise.value, true);
      } else {
        ApplyKeepsInv(d, u, CLEAR_ALL, false);
      }
    }
  }

  lemma PatchKeepsInv(w: World, userId: string, payload: Json, rule: EmailRule, commits: bool)
    requires Inv(w.dir)
    ensures Inv(PatchStep(w, userId, payload, rule, commits).0.dir)
  {
    hide Inv, ApplyMutation, WellFormed, FoldOperations, OperationsOf;
    var found := FindUser(w.dir.users, userId);
    if found.Some? {
      var u := found.value;
      var ctx := Context(w.dir.users[u].email, rule);
      var patch := ParsePatch(payload, ctx);
      if patch.Ok? && !(patch.value.user.userName.Some? && UserNameTaken(w.dir.users, patch.value.user.userName.value, found)) {
        FoldIsGood(EMPTY_PATCH, OperationsOf(payload).value, ctx);
        AccountsOf(w.dir);
        var row := PatchedRow(w.dir.users[u], patch.value.user);
        RowEditKeepsInv(w.dir, u, row);
        if patch.value.enterprise.Some? {
          ApplyKeepsInv(w.dir.(users := w.dir.users[u := row]), u, patch.value.enterprise.value, false);
        }
      }
    }
  }

  /** Over every run of requests the directory invariant holds; in particular the manager
      relation never has a cycle. */
  lemma {:induction false} RunKeepsInv(w: World, requests: seq<Request>, rule: EmailRule)
    requires Inv(w.dir)
    ensures Inv(Run(w, requests, rule).dir)
    decreases |requests|
  {
    if requests == [] {
    } else {
      StepKeepsInv(w, requests[0], rule);
      RunKeepsInv(Step(w, requests[0], rule).0, requests[1..], rule);
    }
  }

  const START: World := World(Directory(map[], map[], 1), [])

  /** So it holds in every state reached from empty tables. */
  lemma ReachedInv(requests: seq<Request>, rule: EmailRule)
    ensures Inv(Run(START, requests, rule).dir)
  {
    hide Run;
    RunKeepsInv(START, requests, rule);
  }
}
