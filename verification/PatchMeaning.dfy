/** What a PATCH document means, read off its own members and strings: which operations are carried
    out, and what one operation does to the attribute that its path names. */
module PatchMeaning {
  import opened Prelude
  import opened Text
  import opened ManagerHierarchy
  import opened EnterpriseProfiles
  import opened ScimPayloads
  import opened EnterpriseUsers
  import opened DirectoryLog

  // ----- Members of an object

  /** A member that is listed is found, whatever stands around it. */
  lemma {:induction false} GetFinds(before: Fields, key: string, v: Json, after: Fields)
    requires forall i :: 0 <= i < |before| ==> before[i].0 != key
    ensures Get(before + [(key, v)] + after, key) == Some(v)
    decreases |before|
  {
    if before == [] {
      assert before + [(key, v)] + after == [(key, v)] + after;
    } else {
      assert (before + [(key, v)] + after)[1..] == before[1..] + [(key, v)] + after;
      GetFinds(before[1..], key, v, after);
    }
  }

  lemma {:induction false} GetMissing(fields: Fields, key: string)
    requires forall i :: 0 <= i < |fields| ==> fields[i].0 != key
    ensures Get(fields, key) == None
  {
    if fields == [] {
    } else {
      GetMissing(fields[1..], key);
    }
  }

  /** The operations are all items of the payload's own "Operations" array. */
  lemma OperationsAreAllItems(before: Fields, ops: seq<Json>, after: Fields)
    requires forall i :: 0 <= i < |before| ==> before[i].0 != "Operations"
    ensures OperationsOf(Obj(before + [("Operations", Arr(ops))] + after)) == if ops == [] then Err(InvalidValue) else Ok(ops)
  {
    GetFinds(before, "Operations", Arr(ops), after);
  }

  /** A list of operations is carried out one after another. */
  lemma {:induction false} OneAfterAnother(a: Attributes, first: seq<Json>, rest: seq<Json>, ctx: Context)
    ensures PerformOperations(a, first + rest, ctx) ==
            var middle := PerformOperations(a, first, ctx);
            if middle.Err? then middle else PerformOperations(middle.value, rest, ctx)
    decreases |first|
  {
    hide PerformEdits, EditsOf;
    if first == [] {
      assert first + rest == rest;
    } else {
      assert (first + rest)[1..] == first[1..] + rest;
      var edits := EditsOf(first[0]);
      if edits.Ok? && PerformEdits(a, edits.value, ctx).Ok? {
        OneAfterAnother(PerformEdits(a, edits.value, ctx).value, first[1..], rest, ctx);
      }
    }
  }

  // ----- Paths and verbs

  /** The lower-case name of a text attribute. */
  function AttributeName(c: Column): string {
    match c
    case EmployeeNumber => "employeenumber"
    case Department => "department"
    case Division => "division"
    case Organization => "organization"
    case CostCenter => "costcenter"
  }

  const SCHEMA: string := "urn:ietf:params:scim:schemas:extension:enterprise:2.0:User"

  /** The path spells the name, in any case, plainly or behind the enterprise schema. */
  predicate Spells(path: string, name: string) {
    Lower(path) == name || Lower(path) == Lower(SCHEMA + ":") + name
  }

  lemma SchemaName()
    ensures ENTERPRISE_SCHEMA == SCHEMA && |SCHEMA| == 58
  {
  }

  lemma NamesDiffer()
    ensures |"employeenumber"| == 14 && |"department"| == 10 && |"division"| == 8 && |"organization"| == 12 && |"costcenter"| == 10
    ensures |"manager"| == 7 && |"manager.value"| == 13 && |"username"| == 8 && |"displayname"| == 11 && |"active"| == 6
    ensures "department"[0] == 'd' && "costcenter"[0] == 'c' && "division"[0] == 'd' && "username"[0] == 'u'
    ensures |"add"| == 3 && |"replace"| == 7 && |"remove"| == 6
  {
  }

  lemma EnterpriseNames(path: string, name: string)
    requires Spells(path, name) && |name| < 58
    ensures var l, prefix := Lower(path), Lower(ENTERPRISE_SCHEMA + ":");
            (if prefix <= l then l[|prefix|..] else l) == name && l != Lower(ENTERPRISE_SCHEMA)
  {
    SchemaName();
    assert |Lower(SCHEMA)| == 58 && |Lower(SCHEMA + ":")| == 59;
  }

  /** Which attribute a path names. */
  lemma PathMeaning(path: string)
    ensures forall c :: Spells(path, AttributeName(c)) ==> TargetOf(path) == Some(Text(c))
    ensures Spells(path, "manager") || Spells(path, "manager.value") ==> TargetOf(path) == Some(Manager)
    ensures Lower(path) == Lower(SCHEMA) ==> TargetOf(path) == Some(WholeExtension)
    ensures Lower(path) == "username" ==> TargetOf(path) == Some(UserName)
    ensures Lower(path) == "displayname" ==> TargetOf(path) == Some(DisplayName)
    ensures Lower(path) == "active" ==> TargetOf(path) == Some(Active)
  {
    hide Lower;
    NamesDiffer();
    SchemaName();
    forall c | Spells(path, AttributeName(c)) ensures TargetOf(path) == Some(Text(c)) {
      EnterpriseNames(path, AttributeName(c));
    }
    if Spells(path, "manager") {
      EnterpriseNames(path, "manager");
    }
    if Spells(path, "manager.value") {
      EnterpriseNames(path, "manager.value");
    }
  }

  /** And no other path names one. */
  lemma OtherPaths(path: string)
    requires Lower(path) != Lower(SCHEMA) && Lower(path) != "username" && Lower(path) != "displayname" && Lower(path) != "active"
    requires !Spells(path, "manager") && !Spells(path, "manager.value") && forall c :: !Spells(path, AttributeName(c))
    ensures TargetOf(path) == None
  {
    hide Lower;
    SchemaName();
    var l, prefix := Lower(path), Lower(SCHEMA + ":");
    assert prefix <= l ==> l == prefix + l[|prefix|..];
    assert !Spells(path, AttributeName(EmployeeNumber)) && !Spells(path, AttributeName(Department)) && !Spells(path, AttributeName(Division));
    assert !Spells(path, AttributeName(Organization)) && !Spells(path, AttributeName(CostCenter));
  }

  predicate Sets(verb: string) {
    Lower(verb) == "add" || Lower(verb) == "replace"
  }

  predicate Removes(verb: string) {
    Lower(verb) == "remove"
  }

  lemma VerbMeaning(verb: string)
    ensures Removes(verb) ==> VerbOf(verb) == Some(Remove)
    ensures Sets(verb) ==> VerbOf(verb).Some? && VerbOf(verb) != Some(Remove)
    ensures VerbOf(verb).Some? <==> Sets(verb) || Removes(verb)
  {
    hide Lower;
    NamesDiffer();
  }

  // ----- Operations with a path

  /** An operation object with an "op" string and a "path" string. */
  predicate IsOperation(operation: Json, verb: string, path: string) {
    operation.Obj? && Get(operation.fields, "op") == Some(Str(verb)) && Get(operation.fields, "path") == Some(Str(path))
  }

  function ValueMember(operation: Json): Option<Json>
    requires operation.Obj?
  {
    Get(operation.fields, "value")
  }

  lemma OneEdit(a: Attributes, operation: Json, verb: string, path: string, ctx: Context)
    requires IsOperation(operation, verb, path)
    ensures PerformOperations(a, [operation], ctx) ==
            if VerbOf(verb).None? || (VerbOf(verb) != Some(Remove) && ValueMember(operation).None?) then Err(InvalidValue)
            else Perform(a, Edit(VerbOf(verb).value, path, if ValueMember(operation).Some? then ValueMember(operation).value else Null), ctx)
  {
    hide Perform, VerbOf;
    assert [operation][1..] == [];
    if EditsOf(operation).Ok? {
      var edit := EditsOf(operation).value[0];
      assert EditsOf(operation).value == [edit] && [edit][1..] == [];
      assert PerformEdits(a, [edit], ctx) == var next := Perform(a, edit, ctx);
             if next.Err? then next else PerformEdits(next.value, [], ctx);
    }
  }

  predicate UserNameValue(v: Option<Json>, rule: EmailRule) {
    v.Some? && v.value.Str? && Strip(v.value.s) != "" && rule(Strip(v.value.s)).Some?
  }

  predicate TextValue(v: Option<Json>) {
    v.Some? && v.value.Str? && 1 <= |Strip(v.value.s)| <= 100
  }

  lemma UserNameOperation(a: Attributes, operation: Json, verb: string, path: string, ctx: Context)
    requires IsOperation(operation, verb, path) && Lower(path) == "username"
    ensures var r := PerformOperations(a, [operation], ctx);
            && (r.Ok? <==> Sets(verb) && UserNameValue(ValueMember(operation), ctx.rule))
            && (r.Ok? ==> r.value == a.(userName := Lower(ctx.rule(Strip(ValueMember(operation).value.s)).value)))
  {
    hide Lower, TargetOf, VerbOf, Strip, Accepted;
    VerbMeaning(verb);
    PathMeaning(path);
    OneEdit(a, operation, verb, path, ctx);
  }

  /** "Remove" falls back to the e-mail at the start of the request. */
  lemma DisplayNameOperation(a: Attributes, operation: Json, verb: string, path: string, ctx: Context)
    requires IsOperation(operation, verb, path) && Lower(path) == "displayname"
    ensures var r := PerformOperations(a, [operation], ctx);
            && (r.Ok? <==> Removes(verb) || (Sets(verb) && TextValue(ValueMember(operation))))
            && (r.Ok? ==> r.value == a.(displayName := if Removes(verb) then ctx.email else Strip(ValueMember(operation).value.s)))
  {
    hide Lower, TargetOf, VerbOf, Strip;
    VerbMeaning(verb);
    PathMeaning(path);
    OneEdit(a, operation, verb, path, ctx);
  }

  /** "Remove" deactivates. */
  lemma ActiveOperation(a: Attributes, operation: Json, verb: string, path: string, ctx: Context)
    requires IsOperation(operation, verb, path) && Lower(path) == "active"
    ensures var r, v := PerformOperations(a, [operation], ctx), ValueMember(operation);
            && (r.Ok? <==> Removes(verb) || (Sets(verb) && v.Some? && v.value.Bool?))
            && (r.Ok? ==> r.value == a.(active := if Removes(verb) then false else v.value.flag))
  {
    hide Lower, TargetOf, VerbOf;
    VerbMeaning(verb);
    PathMeaning(path);
    OneEdit(a, operation, verb, path, ctx);
  }

  /** Only the named column changes: to null by "remove" and by a null value, else to the stripped text. */
  lemma TextOperation(a: Attributes, operation: Json, verb: string, path: string, c: Column, ctx: Context)
    requires IsOperation(operation, verb, path) && Spells(path, AttributeName(c))
    ensures var r, v := PerformOperations(a, [operation], ctx), ValueMember(operation);
            && (r.Ok? <==> Removes(verb) || (Sets(verb) && (v == Some(Null) || TextValue(v))))
            && (r.Ok? ==>
                  && r.value == a.(profile := r.value.profile) && r.value.profile.manager == a.profile.manager
                  && Lookup(r.value.profile.texts, c) == (if Removes(verb) || v == Some(Null) then None else Some(Strip(v.value.s)))
                  && forall d :: d != c ==> Lookup(r.value.profile.texts, d) == Lookup(a.profile.texts, d))
  {
    hide Lower, TargetOf, VerbOf, Strip, Spells;
    VerbMeaning(verb);
    PathMeaning(path);
    OneEdit(a, operation, verb, path, ctx);
  }

  /** What int() makes of a value: a boolean counts as 0 or 1, a fraction is cut toward zero. */
  ghost predicate ReadsAs(v: Json, n: int) {
    match v
    case Int(i) => n == i
    case Bool(flag) => n == if flag then 1 else 0
    case Float(r) => if r >= 0.0 then n as real <= r < n as real + 1.0 else n as real - 1.0 < r <= n as real
    case Str(s) => ParseInt(s) == Some(n)
    case _ => false
  }

  /** A manager value: null, a positive id, or an object with such an id under "value". */
  ghost predicate NamesManager(v: Json, manager: Option<UserId>) {
    match manager
    case None => v == Null
    case Some(id) =>
      && id >= 1
      && (if v.Obj? then Get(v.fields, "value").Some? && ReadsAs(Get(v.fields, "value").value, id) else ReadsAs(v, id))
  }

  lemma IntReading(v: Json, n: int)
    ensures IntOf(v) == Some(n) <==> ReadsAs(v, n)
  {
  }

  lemma ManagerReading(v: Json, manager: Option<UserId>)
    ensures ParseManager(v) == Ok(manager) <==> NamesManager(v, manager)
  {
    hide IntOf, ReadsAs;
    if manager.Some? {
      var id := if v.Obj? && Get(v.fields, "value").Some? then Get(v.fields, "value").value else v;
      IntReading(id, manager.value);
      if v.Null? {
        NullIsNoId();
      }
    }
  }

  lemma NullIsNoId()
    ensures IntOf(Null) == None
  {
  }

  lemma ManagerOperation(a: Attributes, operation: Json, verb: string, path: string, ctx: Context)
    requires IsOperation(operation, verb, path) && (Spells(path, "manager") || Spells(path, "manager.value"))
    ensures var r, v := PerformOperations(a, [operation], ctx), ValueMember(operation);
            && (r.Ok? <==> Removes(verb) || (Sets(verb) && v.Some? && exists m :: NamesManager(v.value, m)))
            && (r.Ok? ==> r.value == a.(profile := a.profile.(manager := r.value.profile.manager)))
            && (r.Ok? && Removes(verb) ==> r.value.profile.manager == None)
            && (r.Ok? && Sets(verb) ==> NamesManager(v.value, r.value.profile.manager))
  {
    hide Lower, TargetOf, VerbOf, Spells, ParseManager, NamesManager;
    VerbMeaning(verb);
    PathMeaning(path);
    OneEdit(a, operation, verb, path, ctx);
    var v := ValueMember(operation);
    if v.Some? {
      forall m { ManagerReading(v.value, m); }
    }
  }

  /** The extension as a whole: every member present sets its column or the manager, the others stay. */
  ghost predicate ExtensionSets(ext: Fields, before: Profile, after: Profile) {
    && (forall c :: match Get(ext, MemberName(c))
                    case None => Lookup(after.texts, c) == Lookup(before.texts, c)
                    case Some(v) => ColumnReads(v, Lookup(after.texts, c)))
    && (match Get(ext, "manager")
        case None => after.manager == before.manager
        case Some(v) => NamesManager(v, after.manager))
  }

  /** A text member: null or a text that is stripped to 1 to 100 characters. */
  predicate ColumnReads(v: Json, text: Option<string>) {
    (v == Null && text == None) || (TextValue(Some(v)) && text == Some(Strip(v.s)))
  }

  /** Member names are case-sensitive. */
  function MemberName(c: Column): string {
    match c
    case EmployeeNumber => "employeeNumber"
    case Department => "department"
    case Division => "division"
    case Organization => "organization"
    case CostCenter => "costCenter"
  }

  lemma TextReading(v: Json, text: Option<string>)
    ensures ParseText(v) == Ok(text) <==> ColumnReads(v, text)
  {
    hide Strip;
  }

  lemma MembersAreColumns(c: Column)
    ensures ColumnName(c) == MemberName(c)
  {
  }

  lemma ExtensionMeaning(ext: Fields, before: Profile)
    ensures ParseExtension(Obj(ext)).Ok? <==> exists after :: ExtensionSets(ext, before, after)
    ensures ParseExtension(Obj(ext)).Ok? ==> ExtensionSets(ext, before, ApplyTo(before, ParseExtension(Obj(ext)).value))
  {
    hide ParseText, ParseManager, Overwrite, ColumnReads, NamesManager, ColumnName, MemberName, Get;
    var parsed := ParseExtension(Obj(ext));
    forall c: Column, v, text
      ensures ColumnName(c) == MemberName(c) && (ParseText(v) == Ok(text) <==> ColumnReads(v, text))
    {
      MembersAreColumns(c);
      TextReading(v, text);
    }
    forall v, m { ManagerReading(v, m); }
    ParseNull();
    if parsed.Ok? {
      forall c { OverwriteLookup(before.texts, parsed.value.texts, c); }
      var after := ApplyTo(before, parsed.value);
      forall c
        ensures match Get(ext, MemberName(c))
                case None => Lookup(after.texts, c) == Lookup(before.texts, c)
                case Some(v) => ColumnReads(v, Lookup(after.texts, c))
      {
        assert HasColumn(ext, c) <==> Get(ext, MemberName(c)).Some?;
      }
      assert ExtensionSets(ext, before, after);
    }
    if after :| ExtensionSets(ext, before, after) {
      forall c | HasColumn(ext, c) ensures ColumnValue(ext, c).Ok? {
        assert ColumnReads(Get(ext, MemberName(c)).value, Lookup(after.texts, c));
      }
    }
  }

  lemma ParseNull()
    ensures ParseManager(Null) == Ok(None) && ParseText(Null) == Ok(None)
  {
  }

  lemma ExtensionOperation(a: Attributes, operation: Json, verb: string, path: string, ctx: Context)
    requires IsOperation(operation, verb, path) && Lower(path) == Lower(SCHEMA)
    ensures var r, v := PerformOperations(a, [operation], ctx), ValueMember(operation);
            && (r.Ok? <==> Removes(verb) || (Sets(verb) && v.Some? && v.value.Obj? && exists p :: ExtensionSets(v.value.fields, a.profile, p)))
            && (r.Ok? ==> r.value == a.(profile := r.value.profile))
            && (r.Ok? && Removes(verb) ==> r.value.profile == Profile(map[], None))
            && (r.Ok? && Sets(verb) ==> ExtensionSets(v.value.fields, a.profile, r.value.profile))
  {
    hide Lower, TargetOf, VerbOf, ParseExtension, ApplyTo, ExtensionSets;
    VerbMeaning(verb);
    PathMeaning(path);
    OneEdit(a, operation, verb, path, ctx);
    var v := ValueMember(operation);
    if v.Some? && v.value.Obj? {
      ExtensionMeaning(v.value.fields, a.profile);
    } else if v.Some? {
      NotAnExtension(v.value);
    } else {
      NotAnExtension(Null);
    }
  }

  lemma NotAnExtension(v: Json)
    requires !v.Obj?
    ensures ParseExtension(v).Err?
  {
  }

  // ----- Operations without a path, and malformed ones

  /** The operation that a member of a pathless value stands for. */
  function MemberOperation(verb: string, member: (string, Json)): Json {
    Obj([("op", Str(verb)), ("path", Str(member.0)), ("value", member.1)])
  }

  function MemberOperations(verb: string, members: Fields): seq<Json> {
    seq(|members|, i requires 0 <= i < |members| => MemberOperation(verb, members[i]))
  }

  lemma MemberOperationReads(verb: string, member: (string, Json))
    ensures IsOperation(MemberOperation(verb, member), verb, member.0) && ValueMember(MemberOperation(verb, member)) == Some(member.1)
  {
    var fields := MemberOperation(verb, member).fields;
    assert |"op"| == 2 && |"path"| == 4 && |"value"| == 5;
    assert fields[1..][0] == ("path", Str(member.0)) && fields[1..][1..][0] == ("value", member.1);
    assert Get(fields, "value") == Get(fields[1..], "value") == Get(fields[1..][1..], "value");
  }

  lemma {:induction false} MemberByMember(a: Attributes, verb: string, members: Fields, edits: seq<Edit>, ctx: Context)
    requires Sets(verb) && VerbOf(verb).Some? && |edits| == |members|
    requires forall i :: 0 <= i < |members| ==> edits[i] == Edit(VerbOf(verb).value, members[i].0, members[i].1)
    ensures PerformEdits(a, edits, ctx) == PerformOperations(a, MemberOperations(verb, members), ctx)
    decreases |members|
  {
    hide Perform, VerbOf, Lower, EditsOf, MemberOperation;
    if members == [] {
    } else {
      var operations := MemberOperations(verb, members);
      assert operations == [operations[0]] + MemberOperations(verb, members[1..]);
      VerbMeaning(verb);
      MemberOperationReads(verb, members[0]);
      OneEdit(a, operations[0], verb, members[0].0, ctx);
      OneAfterAnother(a, [operations[0]], MemberOperations(verb, members[1..]), ctx);
      var next := Perform(a, edits[0], ctx);
      if next.Ok? {
        MemberByMember(next.value, verb, members[1..], edits[1..], ctx);
      }
    }
  }

  /** Without a path, an object value sets its members one after another. */
  lemma PathlessOperation(a: Attributes, operation: Json, verb: string, members: Fields, ctx: Context)
    requires operation.Obj? && Get(operation.fields, "op") == Some(Str(verb)) && Sets(verb)
    requires Get(operation.fields, "path") == None || Get(operation.fields, "path") == Some(Null)
    requires ValueMember(operation) == Some(Obj(members))
    ensures PerformOperations(a, [operation], ctx) == PerformOperations(a, MemberOperations(verb, members), ctx)
  {
    hide VerbOf, Lower, PerformEdits;
    VerbMeaning(verb);
    assert [operation][1..] == [];
    var edits := EditsOf(operation).value;
    MemberByMember(a, verb, members, edits, ctx);
  }

  /** A removal, or a setting operation that has a value. */
  predicate IsComplete(operation: Json, verb: string, path: string) {
    IsOperation(operation, verb, path) && (Removes(verb) || (Sets(verb) && ValueMember(operation).Some?))
  }

  predicate OpIs(operation: Json, verb: string -> bool)
    requires operation.Obj?
  {
    var op := Get(operation.fields, "op");
    op.Some? && op.value.Str? && verb(op.value.s)
  }

  predicate NoPath(operation: Json)
    requires operation.Obj?
  {
    Get(operation.fields, "path") == None || Get(operation.fields, "path") == Some(Null)
  }

  /** Unknown verbs are refused, and so are paths that name no attribute. */
  lemma MalformedOperation(a: Attributes, operation: Json, ctx: Context)
    ensures !operation.Obj? ==> PerformOperations(a, [operation], ctx) == Err(InvalidValue)
    ensures operation.Obj? && (forall verb :: Get(operation.fields, "op") == Some(Str(verb)) ==> !Sets(verb) && !Removes(verb)) ==>
      PerformOperations(a, [operation], ctx) == Err(InvalidValue)
    ensures operation.Obj? && OpIs(operation, Removes) && NoPath(operation) ==> PerformOperations(a, [operation], ctx) == Err(InvalidValue)
    ensures operation.Obj? && OpIs(operation, Sets) && NoPath(operation) && (ValueMember(operation) == None || !ValueMember(operation).value.Obj?) ==>
      PerformOperations(a, [operation], ctx) == Err(InvalidValue)
    ensures operation.Obj? && OpIs(operation, v => Sets(v) || Removes(v)) && !NoPath(operation) && !Get(operation.fields, "path").value.Str? ==>
      PerformOperations(a, [operation], ctx) == Err(InvalidPath)
    ensures forall verb, path :: IsComplete(operation, verb, path) && TargetOf(path) == None ==>
      PerformOperations(a, [operation], ctx) == Err(InvalidPath)
  {
    hide VerbOf, Lower, TargetOf;
    assert [operation][1..] == [];
    forall verb { VerbMeaning(verb); }
    forall verb, path | IsComplete(operation, verb, path) && TargetOf(path) == None
      ensures PerformOperations(a, [operation], ctx) == Err(InvalidPath)
    {
      OneEdit(a, operation, verb, path, ctx);
    }
  }

  // ----- The request as a whole

  /** A PATCH of an existing user carries out all operations of its payload, in order: it is refused
      with their error, or leaves the user's attributes as they leave them, and every other user alone. */
  lemma PatchCarriesOutAll(w: World, userId: string, u: UserId, before: Fields, ops: seq<Json>, after: Fields, rule: EmailRule, commits: bool)
    requires ParseInt(userId) == Some(u as int) && u >= 1 && u in w.dir.users && ops != []
    requires forall i :: 0 <= i < |before| ==> before[i].0 != "Operations"
    ensures var (w', fault) := PatchStep(w, userId, Obj(before + [("Operations", Arr(ops))] + after), rule, commits);
            var outcome := PerformOperations(AttributesOf(w.dir, u), ops, Context(w.dir.users[u].email, rule));
            && (outcome.Err? ==> fault == Some(BadRequest(outcome.error)))
            && (fault.Some? ==> w' == w)
            && (fault.None? ==> commits && u in w'.dir.users && outcome == Ok(AttributesOf(w'.dir, u)))
            && (fault.None? ==> w'.dir.users.Keys == w.dir.users.Keys && forall v :: v in w.dir.users && v != u ==>
                  w'.dir.users[v] == w.dir.users[v] && ProfileOf(w'.dir.profiles, v) == ProfileOf(w.dir.profiles, v))
  {
    var payload := Obj(before + [("Operations", Arr(ops))] + after);
    var ctx := Context(w.dir.users[u].email, rule);
    OperationsAreAllItems(before, ops, after);
    PatchMeansSequence(w, userId, payload, rule, commits);
    assert FindUser(w.dir.users, userId) == Some(u);
    hide FoldOperations, PerformOperations, OperationsOf, FindUser, ApplyMutation, UserNameTaken;
    FoldMeansSequence(AttributesOf(w.dir, u), EMPTY_PATCH, ops, ctx);
  }
}
