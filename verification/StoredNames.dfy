/** Which users survive being read and PUT back: the names that the plain endpoint and PATCH can store,
    and the e-mails that every endpoint stores. */
module StoredNames {
  import opened Prelude
  import opened Text
  import opened ManagerHierarchy
  import opened EnterpriseProfiles
  import opened ScimPayloads
  import opened EnterpriseUsers
  import opened ScimRoundTrip

  // ----- Stored e-mails are always ones the validator made

  ghost predicate EmailsAccepted(users: Users, rule: EmailRule) {
    forall u :: u in users ==> Accepted(users[u].email, rule)
  }

  lemma CommitKeepsEmails(w: World, d: Directory, extra: seq<Event>, user: UserId, mutation: Mutation, replace: bool,
                          rule: EmailRule, commits: bool)
    requires EmailsAccepted(w.dir.users, rule) && EmailsAccepted(d.users, rule) && user in d.users
    ensures EmailsAccepted(Commit(w, extra, ApplyMutation(d, user, mutation, replace), commits).0.dir.users, rule)
  {
    hide Accepted, Check, WrittenProfiles, EventsFor, Desired, NewDepartment;
  }

  lemma StepKeepsEmails(w: World, request: Request, rule: EmailRule)
    requires EmailsAccepted(w.dir.users, rule)
    ensures EmailsAccepted(Step(w, request, rule).0.dir.users, rule)
  {
    hide Accepted, ApplyMutation, ParseUserPayload, FoldOperations, OperationsOf, FindUser, UserNameTaken, WellFormed;
    match request
    case PostUser(user, commits) =>
      if Address(user.email, rule).Some? {
        MadeByRule(user.email, rule);
      }
    case Post(payload, commits) =>
      var data := ParseUserPayload(payload, rule);
      if data.Ok? && data.value.enterprise.Some? {
        var email := Lower(data.value.userName);
        var d := InsertUser(w.dir, User(email, data.value.displayName, DEFAULT_DEPARTMENT, data.value.active));
        CommitKeepsEmails(w, d, [UserProvisioned(w.dir.nextId, email)], w.dir.nextId, data.value.enterprise.value, false, rule, commits);
      }
    case Put(userId, payload, commits) =>
      var data := ParseUserPayload(payload, rule);
      var found := FindUser(w.dir.users, userId);
      if data.Ok? && found.Some? {
        var row := w.dir.users[found.value].(email := Lower(data.value.userName), name := data.value.displayName, active := data.value.active);
        var d := w.dir.(users := w.dir.users[found.value := row]);
        CommitKeepsEmails(w, d, [], found.value, CLEAR_ALL, false, rule, commits);
        if data.value.enterprise.Some? {
          CommitKeepsEmails(w, d, [], found.value, data.value.enterprise.value, true, rule, commits);
        }
      }
    case Patch(userId, payload, commits) =>
      var found := FindUser(w.dir.users, userId);
      if found.Some? && OperationsOf(payload).Ok? {
        var ctx := Context(w.dir.users[found.value].email, rule);
        FoldIsGood(EMPTY_PATCH, OperationsOf(payload).value, ctx);
        var patch := ParsePatch(payload, ctx);
        if patch.Ok? && patch.value.enterprise.Some? {
          var d := w.dir.(users := w.dir.users[found.value := PatchedRow(w.dir.users[found.value], patch.value.user)]);
          CommitKeepsEmails(w, d, [], found.value, patch.value.enterprise.value, false, rule, commits);
        }
      }
  }

  lemma MadeByRule(text: string, rule: EmailRule)
    requires Address(text, rule).Some?
    ensures Accepted(Address(text, rule).value, rule)
  {
  }

  lemma {:induction false} RunKeepsEmails(w: World, requests: seq<Request>, rule: EmailRule)
    requires EmailsAccepted(w.dir.users, rule)
    ensures EmailsAccepted(Run(w, requests, rule).dir.users, rule)
    decreases |requests|
  {
    if requests == [] {
    } else {
      StepKeepsEmails(w, requests[0], rule);
      RunKeepsEmails(Step(w, requests[0], rule).0, requests[1..], rule);
    }
  }

  /** What the validator makes of a text it takes again for what it is, in lower case and stripped. */
  ghost predicate Idempotent(rule: EmailRule) {
    forall text :: Address(text, rule).Some? ==>
      var email := Address(text, rule).value; email != "" && Stripped(email) && Address(email, rule) == Some(email)
  }

  lemma AcceptedIsSettled(email: string, rule: EmailRule)
    requires Idempotent(rule) && Accepted(email, rule)
    ensures SettledEmail(email, rule) && email != "" && Stripped(email)
  {
    StripOfStripped(email);
  }

  // ----- The name decides

  /** With an idempotent validator the stored name alone decides, in every state reached from empty
      tables: PUTting back is the identity exactly when the name is stripped, non-empty and at most
      100 characters long. */
  lemma NameDecides(requests: seq<Request>, u: UserId, baseUrl: string, rule: EmailRule)
    requires Idempotent(rule) && u in Run(START, requests, rule).dir.users
    ensures var w := Run(START, requests, rule);
            PutStep(w, Decimal(u), Resource(w.dir, u, baseUrl), rule, true) == (w, None) <==> GoodText(w.dir.users[u].name)
  {
    hide Run, PutStep, Resource, Idempotent, Accepted, GoodText, SettledEmail;
    ReachedPutBack(requests, u, baseUrl, rule);
    RunKeepsEmails(START, requests, rule);
    AcceptedIsSettled(Run(START, requests, rule).dir.users[u].email, rule);
  }

  /** The plain endpoint stores any name of 1 to 100 characters: after any run, a user that it creates
      survives being read and PUT back exactly when that name is also stripped. */
  lemma PlainNames(requests: seq<Request>, user: User, baseUrl: string, rule: EmailRule)
    requires Idempotent(rule)
    requires PlainPostStep(Run(START, requests, rule), user, rule, true).1 == None
    ensures var u := Run(START, requests, rule).dir.nextId;
            var w := Run(START, requests + [PostUser(user, true)], rule);
            && u in w.dir.users && w.dir.users[u] == user.(email := Address(user.email, rule).value)
            && (PutStep(w, Decimal(u), Resource(w.dir, u, baseUrl), rule, true) == (w, None) <==> Stripped(user.name))
  {
    hide PutStep, Resource, Idempotent, Run, Address, Decimal, UserNameTaken;
    RunThenStep(START, requests, PostUser(user, true), rule);
    NameDecides(requests + [PostUser(user, true)], Run(START, requests, rule).dir.nextId, baseUrl, rule);
  }

  lemma PlainUser(user: User, rule: EmailRule)
    requires Address(user.email, rule).Some? && Between1And100(user.name) && Between1And100(user.department)
    ensures Run(START, [PostUser(user, true)], rule) ==
            World(Directory(map[1 := user.(email := Address(user.email, rule).value)], map[], 2), [])
  {
    hide Address;
    var request := PostUser(user, true);
    assert Run(START, [request], rule) == Step(START, request, rule).0 by {
      assert [request][1..] == [];
      assert Run(Step(START, request, rule).0, [], rule) == Step(START, request, rule).0;
    }
  }

  /** So for every validator, whatever address it accepts, PUTting back a user created with a leading
      space in the name is not the identity. */
  lemma LeadingSpaceIsLost(address: string, baseUrl: string, rule: EmailRule)
    requires Address(address, rule).Some?
    ensures var w := Run(START, [PostUser(User(address, " Bob", "x", true), true)], rule);
            1 in w.dir.users && PutStep(w, "1", Resource(w.dir, 1, baseUrl), rule, true) != (w, None)
  {
    hide PutStep, Resource, Run, Address;
    var requests := [PostUser(User(address, " Bob", "x", true), true)];
    PlainUser(User(address, " Bob", "x", true), rule);
    ReachedPutBack(requests, 1, baseUrl, rule);
    assert Decimal(1) == "1";
    assert " Bob"[0] == ' ';
  }

  // ----- Removing the display name stores the e-mail

  const REMOVE_NAME: Json :=
    Obj([("Operations", Arr([Obj([("op", Str("remove")), ("path", Str("displayName"))])]))])

  lemma DisplayNamePath()
    ensures TargetOf("displayName") == Some(DisplayName) && VerbOf("remove") == Some(Remove)
  {
    var lowered := Lower("displayName");
    assert lowered == "displayname" && Lower("remove") == "remove";
    assert |lowered| == 11 && |ENTERPRISE_SCHEMA| == 58 && |"employeenumber"| == 14;
    assert lowered[0] == 'd' && lowered[1] == 'i' && lowered[2] == 's' && "division"[2] == 'v' && "department"[1] == 'e';
    assert |"manager.value"| == 13 && |"manager"| == 7 && |"organization"| == 12 && |"costcenter"| == 10 && |"division"| == 8;
  }

  lemma RemovalParses(ctx: Context)
    ensures ParsePatch(REMOVE_NAME, ctx) == Ok(UserPatch(UserMutation(None, Some(ctx.email), None), None))
  {
    hide TargetOf, VerbOf;
    DisplayNamePath();
    var operation := Obj([("op", Str("remove")), ("path", Str("displayName"))]);
    assert OperationsOf(REMOVE_NAME) == Ok([operation]);
    assert GetOrNull(operation.fields, "op") == Str("remove");
    assert GetOrNull(operation.fields, "path") == Str("displayName") by {
      assert operation.fields[1..][0] == ("path", Str("displayName"));
    }
    var edit := Edit(Remove, "displayName", GetOrNull(operation.fields, "value"));
    assert EditsOf(operation) == Ok([edit]);
    var patch := UserPatch(UserMutation(None, Some(ctx.email), None), None);
    assert PatchAttribute(EMPTY_PATCH, edit.verb, edit.path, edit.value, ctx) == Ok(patch);
    assert [edit][1..] == [] && [operation][1..] == [];
    assert PatchEdits(EMPTY_PATCH, [edit], ctx) == PatchEdits(patch, [], ctx) == Ok(patch);
    assert FoldOperations(EMPTY_PATCH, [operation], ctx) == FoldOperations(patch, [], ctx) == Ok(patch);
  }

  /** PATCH "remove displayName" stores the e-mail as the name, of whatever length. */
  lemma RemovalStoresEmail(w: World, u: UserId, rule: EmailRule)
    requires Inv(w.dir) && u in w.dir.users
    ensures PatchStep(w, Decimal(u), REMOVE_NAME, rule, true) ==
            (w.(dir := w.dir.(users := w.dir.users[u := w.dir.users[u].(name := w.dir.users[u].email)])), None)
  {
    hide ParsePatch, Decimal, ParseInt;
    ParseDecimal(u);
    NameIsOwn(w.dir, u);
    RemovalParses(Context(w.dir.users[u].email, rule));
    assert w.published + [] + [] == w.published;
  }

  lemma {:induction false} RunThenStep(w: World, requests: seq<Request>, last: Request, rule: EmailRule)
    ensures Run(w, requests + [last], rule) == Step(Run(w, requests, rule), last, rule).0
    decreases |requests|
  {
    hide Step;
    if requests == [] {
      assert [last][1..] == [] && [] + [last] == [last];
      assert Run(w, [last], rule) == Run(Step(w, last, rule).0, [], rule);
    } else {
      assert (requests + [last])[1..] == requests[1..] + [last];
      RunThenStep(Step(w, requests[0], rule).0, requests[1..], last, rule);
    }
  }

  /** After that PATCH, in every reachable state, PUTting back is the identity exactly when the e-mail
      has at most 100 characters. */
  lemma RemovalThenPutBack(requests: seq<Request>, u: UserId, baseUrl: string, rule: EmailRule)
    requires Idempotent(rule) && u in Run(START, requests, rule).dir.users
    ensures var w := Run(START, requests + [Patch(Decimal(u), REMOVE_NAME, true)], rule);
            && u in w.dir.users && w.dir.users[u].name == w.dir.users[u].email
            && (PutStep(w, Decimal(u), Resource(w.dir, u, baseUrl), rule, true) == (w, None) <==> |w.dir.users[u].email| <= 100)
  {
    hide Run, PutStep, PatchStep, Resource, Idempotent, Accepted, SettledEmail, Decimal, PlainPostStep, PostStep;
    var more := requests + [Patch(Decimal(u), REMOVE_NAME, true)];
    RunThenStep(START, requests, Patch(Decimal(u), REMOVE_NAME, true), rule);
    ReachedInv(requests, rule);
    RemovalStoresEmail(Run(START, requests, rule), u, rule);
    NameDecides(more, u, baseUrl, rule);
    RunKeepsEmails(START, more, rule);
    AcceptedIsSettled(Run(START, more, rule).dir.users[u].email, rule);
  }

  /** So for every validator that accepts an address of more than 100 characters: a user with that
      address and the name "Bob", whose display name is then removed, does not survive being read and
      PUT back. */
  lemma LongEmailIsLost(address: string, baseUrl: string, rule: EmailRule)
    requires Address(address, rule).Some? && |Address(address, rule).value| > 100
    ensures var w := Run(START, [PostUser(User(address, "Bob", "x", true), true)] + [Patch("1", REMOVE_NAME, true)], rule);
            && 1 in w.dir.users && w.dir.users[1].name == w.dir.users[1].email == Address(address, rule).value
            && PutStep(w, "1", Resource(w.dir, 1, baseUrl), rule, true) != (w, None)
  {
    hide PutStep, PatchStep, Resource, Run, Address, Decimal, SettledEmail, PlainPostStep, PostStep;
    var user := User(address, "Bob", "x", true);
    var created := [PostUser(user, true)];
    var removal := Patch("1", REMOVE_NAME, true);
    OneIsOne();
    PlainUser(user, rule);
    RunThenStep(START, created, removal, rule);
    ReachedInv(created, rule);
    RemovalStoresEmail(Run(START, created, rule), 1, rule);
    ReachedPutBack(created + [removal], 1, baseUrl, rule);
  }

  lemma OneIsOne()
    ensures Decimal(1) == "1"
  {
  }
}
