/** Parsing of SCIM user payloads, and PATCH requests folded into one mutation. */
module ScimPayloads {
  import opened Prelude
  import opened Text
  import opened ManagerHierarchy
  import opened EnterpriseProfiles

  /** A decoded JSON value; object members keep their order and have distinct names. */
  datatype Json =
    | Null
    | Bool(flag: bool)
    | Int(n: int)
    | Float(r: real)
    | Str(s: string)
    | Arr(items: seq<Json>)
    | Obj(fields: Fields)

  type Fields = seq<(string, Json)>

  datatype ScimError = InvalidValue | InvalidPath

  /** The e-mail address validator: the normalised address, or a rejection. */
  type EmailRule = string -> Option<string>

  const ENTERPRISE_SCHEMA := "urn:ietf:params:scim:schemas:extension:enterprise:2.0:User"

  function Get(fields: Fields, key: string): Option<Json> {
    if fields == [] then None
    else if fields[0].0 == key then Some(fields[0].1)
    else Get(fields[1..], key)
  }

  /** dict.get: a missing member reads as null. */
  function GetOrNull(fields: Fields, key: string): Json {
    var v := Get(fields, key);
    if v.Some? then v.value else Null
  }

  // ----- Value parsers

  /** int(value): truncates floats toward zero, reads booleans as 0 and 1. */
  function IntOf(v: Json): Option<int> {
    match v
    case Int(n) => Some(n)
    case Bool(b) => Some(if b then 1 else 0)
    case Float(r) => Some(if r >= 0.0 then r.Floor else -((-r).Floor))
    case Str(s) => ParseInt(s)
    case _ => None
  }

  /** What a stored enterprise text looks like. */
  predicate GoodText(s: string) {
    s != "" && |s| <= 100 && Stripped(s)
  }

  function ParseText(v: Json): (r: Result<Option<string>, ScimError>)
    ensures r.Err? ==> r.error == InvalidValue
    ensures r.Ok? && r.value.Some? ==> GoodText(r.value.value)
  {
    match v
    case Null => Ok(None)
    case Str(s) =>
      StripIsStripped(s);
      if Strip(s) == "" || |Strip(s)| > 100 then Err(InvalidValue) else Ok(Some(Strip(s)))
    case _ => Err(InvalidValue)
  }

  function ParseManagerId(v: Json): (r: Result<Option<UserId>, ScimError>)
    ensures r.Err? ==> r.error == InvalidValue
    ensures r.Ok? && r.value.Some? ==> r.value.value >= 1
  {
    var id := IntOf(v);
    if id.None? || id.value < 1 then Err(InvalidValue) else Ok(Some(id.value))
  }

  function ParseManager(v: Json): (r: Result<Option<UserId>, ScimError>)
    ensures r.Err? ==> r.error == InvalidValue
    ensures r.Ok? && r.value.Some? ==> r.value.value >= 1
  {
    match v
    case Null => Ok(None)
    case Obj(fields) =>
      var value := Get(fields, "value");
      if value.None? then Err(InvalidValue) else ParseManagerId(value.value)
    case _ => ParseManagerId(v)
  }

  /** The address the validator makes of a text, in lower case. */
  function Address(text: string, rule: EmailRule): Option<string> {
    var address := rule(text);
    if address.None? then None else Some(Lower(address.value))
  }

  /** The validator makes `name` of some text. */
  ghost predicate Accepted(name: string, rule: EmailRule) {
    exists text :: Address(text, rule) == Some(name)
  }

  lemma AcceptedIsLower(name: string, rule: EmailRule)
    requires Accepted(name, rule)
    ensures Lower(name) == name
  {
    var text :| Address(text, rule) == Some(name);
  }

  function ParseUserName(v: Json, rule: EmailRule): (r: Result<string, ScimError>)
    ensures r.Err? ==> r.error == InvalidValue
    ensures r.Ok? ==> Accepted(r.value, rule) && Lower(r.value) == r.value
  {
    if !v.Str? || Strip(v.s) == "" then Err(InvalidValue)
    else
      var address := Address(Strip(v.s), rule);
      if address.None? then Err(InvalidValue)
      else
        AcceptedIsLower(address.value, rule);
        Ok(address.value)
  }

  function ParseDisplayName(v: Json): (r: Result<string, ScimError>)
    ensures r.Err? ==> r.error == InvalidValue
  {
    if !v.Str? || Strip(v.s) == "" || |Strip(v.s)| > 100 then Err(InvalidValue) else Ok(Strip(v.s))
  }

  function ColumnName(c: Column): string {
    match c
    case EmployeeNumber => "employeeNumber"
    case Department => "department"
    case Division => "division"
    case Organization => "organization"
    case CostCenter => "costCenter"
  }

  predicate HasColumn(fields: Fields, c: Column) {
    Get(fields, ColumnName(c)).Some?
  }

  function ColumnValue(fields: Fields, c: Column): Result<Option<string>, ScimError> {
    ParseText(GetOrNull(fields, ColumnName(c)))
  }

  /** An enterprise extension object: members that are present set their column. */
  function ParseExtension(v: Json): (r: Result<Mutation, ScimError>)
    ensures r.Err? ==> r.error == InvalidValue
    ensures r.Ok? ==> WellFormed(r.value)
  {
    if !v.Obj? then Err(InvalidValue)
    else if exists c: Column :: HasColumn(v.fields, c) && ColumnValue(v.fields, c).Err? then Err(InvalidValue)
    else
      var manager := ParseManager(GetOrNull(v.fields, "manager"));
      if manager.Err? then Err(InvalidValue)
      else Ok(Mutation(map c: Column | HasColumn(v.fields, c) :: ColumnValue(v.fields, c).value,
                       if Get(v.fields, "manager").None? then None else Some(manager.value)))
  }

  /** Every text a mutation writes is a good text, and every manager id is positive. */
  predicate WellFormed(m: Mutation) {
    && (forall c :: c in m.texts && m.texts[c].Some? ==> GoodText(m.texts[c].value))
    && (m.manager.Some? && m.manager.value.Some? ==> m.manager.value.value >= 1)
  }

  // ----- Whole-user payloads (create and replace)

  datatype UserPayload = UserPayload(userName: string, displayName: string, active: bool, enterprise: Option<Mutation>)

  function ParseUserPayload(payload: Json, rule: EmailRule): (r: Result<UserPayload, ScimError>)
    ensures r.Ok? ==> Accepted(r.value.userName, rule) && Lower(r.value.userName) == r.value.userName
    ensures r.Ok? && r.value.enterprise.Some? ==> WellFormed(r.value.enterprise.value)
  {
    if !payload.Obj? then Err(InvalidValue)
    else
      var fields := payload.fields;
      var userName := ParseUserName(GetOrNull(fields, "userName"), rule);
      var name := GetOrNull(fields, "name");
      var display :=
        if GetOrNull(fields, "displayName") != Null then ParseDisplayName(GetOrNull(fields, "displayName"))
        else if name.Obj? && GetOrNull(name.fields, "formatted") != Null then ParseDisplayName(GetOrNull(name.fields, "formatted"))
        else Err(InvalidValue);
      var active := Get(fields, "active");
      var extension := Get(fields, ENTERPRISE_SCHEMA);
      if userName.Err? || display.Err? || (active.Some? && !active.value.Bool?) then Err(InvalidValue)
      else
        var flag := active.None? || active.value.flag;
        if extension.None? then Ok(UserPayload(userName.value, display.value, flag, None))
        else
          var mutation := ParseExtension(extension.value);
          if mutation.Err? then Err(InvalidValue)
          else Ok(UserPayload(userName.value, display.value, flag, Some(mutation.value)))
  }

  // ----- PATCH: the folded form

  datatype UserMutation = UserMutation(userName: Option<string>, displayName: Option<string>, active: Option<bool>)

  datatype UserPatch = UserPatch(user: UserMutation, enterprise: Option<Mutation>)

  const EMPTY_PATCH := UserPatch(UserMutation(None, None, None), None)

  datatype Verb = Add | Replace | Remove

  datatype Target = UserName | DisplayName | Active | WholeExtension | Text(c: Column) | Manager

  function VerbOf(raw: string): Option<Verb> {
    var op := Lower(raw);
    if op == "add" then Some(Add) else if op == "replace" then Some(Replace) else if op == "remove" then Some(Remove) else None
  }

  function EnterpriseTarget(name: string): Option<Target> {
    if name == "employeenumber" then Some(Text(EmployeeNumber))
    else if name == "department" then Some(Text(Department))
    else if name == "division" then Some(Text(Division))
    else if name == "organization" then Some(Text(Organization))
    else if name == "costcenter" then Some(Text(CostCenter))
    else if name == "manager" || name == "manager.value" then Some(Manager)
    else None
  }

  /** Path lookup ignores case; enterprise names may carry the schema prefix. */
  function TargetOf(path: string): Option<Target> {
    var lowered, prefix := Lower(path), Lower(ENTERPRISE_SCHEMA + ":");
    var enterprise :=
      if lowered == Lower(ENTERPRISE_SCHEMA) then Some(WholeExtension)
      else EnterpriseTarget(if prefix <= lowered then lowered[|prefix|..] else lowered);
    if enterprise.Some? then enterprise
    else if lowered == "username" then Some(UserName)
    else if lowered == "displayname" then Some(DisplayName)
    else if lowered == "active" then Some(Active)
    else None
  }

  /** What every operation of one request sees: the user's e-mail when the request began. */
  datatype Context = Context(email: string, rule: EmailRule)

  function MergeInto(patch: UserPatch, m: Mutation): UserPatch {
    patch.(enterprise := Some(Merge(if patch.enterprise.Some? then patch.enterprise.value else NO_CHANGES, m)))
  }

  function PatchAttribute(patch: UserPatch, verb: Verb, path: string, value: Json, ctx: Context): Result<UserPatch, ScimError> {
    match TargetOf(path)
    case None => Err(InvalidPath)
    case Some(WholeExtension) =>
      if verb.Remove? then Ok(MergeInto(patch, CLEAR_ALL))
      else
        var m := ParseExtension(value);
        if m.Err? then Err(m.error) else Ok(MergeInto(patch, m.value))
    case Some(Text(c)) =>
      var text := if verb.Remove? then Ok(None) else ParseText(value);
      if text.Err? then Err(text.error) else Ok(MergeInto(patch, Mutation(map[c := text.value], None)))
    case Some(Manager) =>
      var manager := if verb.Remove? then Ok(None) else ParseManager(value);
      if manager.Err? then Err(manager.error) else Ok(MergeInto(patch, Mutation(map[], Some(manager.value))))
    case Some(UserName) =>
      if verb.Remove? then Err(InvalidValue)
      else
        var name := ParseUserName(value, ctx.rule);
        if name.Err? then Err(name.error) else Ok(patch.(user := patch.user.(userName := Some(name.value))))
    case Some(DisplayName) =>
      var name := if verb.Remove? then Ok(ctx.email) else ParseDisplayName(value);
      if name.Err? then Err(name.error) else Ok(patch.(user := patch.user.(displayName := Some(name.value))))
    case Some(Active) =>
      if verb.Remove? then Ok(patch.(user := patch.user.(active := Some(false))))
      else if !value.Bool? then Err(InvalidValue)
      else Ok(patch.(user := patch.user.(active := Some(value.flag))))
  }

  /** One operation, decoded: the attribute edits it stands for, in order. */
  datatype Edit = Edit(verb: Verb, path: string, value: Json)

  function EditsOf(operation: Json): Result<seq<Edit>, ScimError> {
    if !operation.Obj? then Err(InvalidValue)
    else
      var op, path := GetOrNull(operation.fields, "op"), GetOrNull(operation.fields, "path");
      var value := GetOrNull(operation.fields, "value");
      if !op.Str? || VerbOf(op.s).None? then Err(InvalidValue)
      else
        var verb := VerbOf(op.s).value;
        if path == Null then
          if verb.Remove? || !value.Obj? then Err(InvalidValue)
          else Ok(seq(|value.fields|, i requires 0 <= i < |value.fields| => Edit(verb, value.fields[i].0, value.fields[i].1)))
        else if !path.Str? then Err(InvalidPath)
        else if !verb.Remove? && Get(operation.fields, "value").None? then Err(InvalidValue)
        else Ok([Edit(verb, path.s, value)])
  }

  function PatchEdits(patch: UserPatch, edits: seq<Edit>, ctx: Context): Result<UserPatch, ScimError>
    decreases |edits|
  {
    if edits == [] then Ok(patch)
    else
      var next := PatchAttribute(patch, edits[0].verb, edits[0].path, edits[0].value, ctx);
      if next.Err? then next else PatchEdits(next.value, edits[1..], ctx)
  }

  function FoldOperations(patch: UserPatch, operations: seq<Json>, ctx: Context): Result<UserPatch, ScimError>
    decreases |operations|
  {
    if operations == [] then Ok(patch)
    else
      var edits := EditsOf(operations[0]);
      if edits.Err? then Err(edits.error)
      else
        var next := PatchEdits(patch, edits.value, ctx);
        if next.Err? then next else FoldOperations(next.value, operations[1..], ctx)
  }

  function OperationsOf(payload: Json): Result<seq<Json>, ScimError> {
    if !payload.Obj? then Err(InvalidValue)
    else
      var operations := GetOrNull(payload.fields, "Operations");
      if !operations.Arr? || operations.items == [] then Err(InvalidValue) else Ok(operations.items)
  }

  function ParsePatch(payload: Json, ctx: Context): Result<UserPatch, ScimError> {
    var operations := OperationsOf(payload);
    if operations.Err? then Err(operations.error) else FoldOperations(EMPTY_PATCH, operations.value, ctx)
  }

  /** The request parser's loops: the patch is rebound once per attribute edit. */
  method ParsePatchPayload(payload: Json, ctx: Context) returns (r: Result<UserPatch, ScimError>)
    ensures r == ParsePatch(payload, ctx)
  {
    var operations := OperationsOf(payload);
    if operations.Err? {
      return Err(operations.error);
    }
    var ops := operations.value;
    var patch := EMPTY_PATCH;
    for i := 0 to |ops|
      invariant FoldOperations(EMPTY_PATCH, ops, ctx) == FoldOperations(patch, ops[i..], ctx)
    {
      var edits := EditsOf(ops[i]);
      if edits.Err? {
        return Err(edits.error);
      }
      ghost var start := patch;
      for j := 0 to |edits.value|
        invariant PatchEdits(start, edits.value, ctx) == PatchEdits(patch, edits.value[j..], ctx)
      {
        var edit := edits.value[j];
        var next := PatchAttribute(patch, edit.verb, edit.path, edit.value, ctx);
        if next.Err? {
          return next;
        }
        patch := next.value;
      }
    }
    r := Ok(patch);
  }

  // ----- PATCH: one operation after another

  /** The attributes of one user that SCIM exposes; a missing profile reads as all null. */
  datatype Attributes = Attributes(userName: string, displayName: string, active: bool, profile: Profile)

  function SetText(p: Profile, c: Column, v: Option<string>): Profile {
    p.(texts := if v.Some? then p.texts[c := v.value] else p.texts - {c})
  }

  /** One edit carried out at once on the attributes. */
  function Perform(a: Attributes, edit: Edit, ctx: Context): Result<Attributes, ScimError> {
    var target, removing := TargetOf(edit.path), edit.verb.Remove?;
    if target.None? then Err(InvalidPath)
    else match target.value
    case UserName =>
      if removing || ParseUserName(edit.value, ctx.rule).Err? then Err(InvalidValue)
      else Ok(a.(userName := ParseUserName(edit.value, ctx.rule).value))
    case DisplayName =>
      if removing then Ok(a.(displayName := ctx.email))
      else if ParseDisplayName(edit.value).Err? then Err(InvalidValue)
      else Ok(a.(displayName := ParseDisplayName(edit.value).value))
    case Active =>
      if removing then Ok(a.(active := false))
      else if edit.value.Bool? then Ok(a.(active := edit.value.flag)) else Err(InvalidValue)
    case WholeExtension =>
      if removing then Ok(a.(profile := EMPTY_PROFILE))
      else if ParseExtension(edit.value).Err? then Err(InvalidValue)
      else Ok(a.(profile := ApplyTo(a.profile, ParseExtension(edit.value).value)))
    case Text(c) =>
      if removing then Ok(a.(profile := SetText(a.profile, c, None)))
      else if ParseText(edit.value).Err? then Err(InvalidValue)
      else Ok(a.(profile := SetText(a.profile, c, ParseText(edit.value).value)))
    case Manager =>
      if removing then Ok(a.(profile := a.profile.(manager := None)))
      else if ParseManager(edit.value).Err? then Err(InvalidValue)
      else Ok(a.(profile := a.profile.(manager := ParseManager(edit.value).value)))
  }

  function PerformEdits(a: Attributes, edits: seq<Edit>, ctx: Context): Result<Attributes, ScimError>
    decreases |edits|
  {
    if edits == [] then Ok(a)
    else
      var next := Perform(a, edits[0], ctx);
      if next.Err? then next else PerformEdits(next.value, edits[1..], ctx)
  }

  function PerformOperations(a: Attributes, operations: seq<Json>, ctx: Context): Result<Attributes, ScimError>
    decreases |operations|
  {
    if operations == [] then Ok(a)
    else
      var edits := EditsOf(operations[0]);
      if edits.Err? then Err(edits.error)
      else
        var next := PerformEdits(a, edits.value, ctx);
        if next.Err? then next else PerformOperations(next.value, operations[1..], ctx)
  }

  // ----- The two agree

  /** A user row after patch_user and patch_enterprise_profile. */
  function ApplyPatch(a: Attributes, patch: UserPatch): Attributes {
    Attributes(
      if patch.user.userName.Some? then Lower(patch.user.userName.value) else a.userName,
      if patch.user.displayName.Some? then patch.user.displayName.value else a.displayName,
      if patch.user.active.Some? then patch.user.active.value else a.active,
      if patch.enterprise.Some? then ApplyTo(a.profile, patch.enterprise.value) else a.profile)
  }

  /** Same error, or a folded patch whose effect on `a` is the sequential outcome. */
  predicate Agrees(a: Attributes, folded: Result<UserPatch, ScimError>, sequential: Result<Attributes, ScimError>) {
    match (folded, sequential)
    case (Ok(patch), Ok(after)) => ApplyPatch(a, patch) == after
    case (Err(e), Err(e')) => e == e'
    case _ => false
  }

  lemma MergeIntoAgrees(a: Attributes, patch: UserPatch, m: Mutation)
    ensures ApplyPatch(a, MergeInto(patch, m)) ==
            ApplyPatch(a, patch).(profile := ApplyTo(ApplyPatch(a, patch).profile, m))
  {
    var current := if patch.enterprise.Some? then patch.enterprise.value else NO_CHANGES;
    MergeIsSequential(a.profile, current, m);
  }

  lemma SingleWrites(p: Profile, c: Column, v: Option<string>, manager: Option<UserId>)
    ensures ApplyTo(p, Mutation(map[c := v], None)) == SetText(p, c, v)
    ensures ApplyTo(p, Mutation(map[], Some(manager))) == p.(manager := manager)
    ensures ApplyTo(p, CLEAR_ALL) == EMPTY_PROFILE
  {
    SameTexts(Overwrite(p.texts, map[c := v]), SetText(p, c, v).texts);
    SameTexts(Overwrite(p.texts, map[]), p.texts);
    SameTexts(Overwrite(p.texts, CLEAR_ALL.texts), map[]);
  }

  lemma PatchAttributeAgrees(a: Attributes, patch: UserPatch, edit: Edit, ctx: Context)
    ensures Agrees(a, PatchAttribute(patch, edit.verb, edit.path, edit.value, ctx), Perform(ApplyPatch(a, patch), edit, ctx))
  {
    hide TargetOf, ParseText, ParseManager, ParseExtension, ParseUserName, ParseDisplayName, ApplyTo, MergeInto;
    var now := ApplyPatch(a, patch);
    match TargetOf(edit.path)
    case Some(Text(c)) =>
      var text := if edit.verb.Remove? then Ok(None) else ParseText(edit.value);
      if text.Ok? {
        MergeIntoAgrees(a, patch, Mutation(map[c := text.value], None));
        SingleWrites(now.profile, c, text.value, None);
      }
    case Some(Manager) =>
      var manager := if edit.verb.Remove? then Ok(None) else ParseManager(edit.value);
      if manager.Ok? {
        MergeIntoAgrees(a, patch, Mutation(map[], Some(manager.value)));
        SingleWrites(now.profile, Department, None, manager.value);
      }
    case Some(WholeExtension) =>
      var m := if edit.verb.Remove? then Ok(CLEAR_ALL) else ParseExtension(edit.value);
      if m.Ok? {
        MergeIntoAgrees(a, patch, m.value);
        SingleWrites(now.profile, Department, None, None);
      }
    case _ =>
  }

  lemma {:induction false} PatchEditsAgree(a: Attributes, patch: UserPatch, edits: seq<Edit>, ctx: Context)
    ensures Agrees(a, PatchEdits(patch, edits, ctx), PerformEdits(ApplyPatch(a, patch), edits, ctx))
    decreases |edits|
  {
    hide PatchAttribute, Perform, ApplyPatch;
    if edits == [] {
    } else {
      PatchAttributeAgrees(a, patch, edits[0], ctx);
      var next := PatchAttribute(patch, edits[0].verb, edits[0].path, edits[0].value, ctx);
      if next.Ok? {
        PatchEditsAgree(a, next.value, edits[1..], ctx);
      }
    }
  }

  /** Folding all operations into one mutation and applying it once has the same outcome, errors
      included, as carrying the operations out one after another. */
  lemma {:induction false} FoldMeansSequence(a: Attributes, patch: UserPatch, operations: seq<Json>, ctx: Context)
    ensures Agrees(a, FoldOperations(patch, operations, ctx), PerformOperations(ApplyPatch(a, patch), operations, ctx))
    decreases |operations|
  {
    hide PatchEdits, PerformEdits, EditsOf, ApplyPatch;
    if operations == [] {
    } else {
      var edits := EditsOf(operations[0]);
      if edits.Ok? {
        PatchEditsAgree(a, patch, edits.value, ctx);
        var next := PatchEdits(patch, edits.value, ctx);
        if next.Ok? {
          FoldMeansSequence(a, next.value, operations[1..], ctx);
        }
      }
    }
  }

  // ----- Everything a patch writes is well formed

  ghost predicate GoodPatch(patch: UserPatch, rule: EmailRule) {
    && (patch.enterprise.Some? ==> WellFormed(patch.enterprise.value))
    && (patch.user.userName.Some? ==>
          Accepted(patch.user.userName.value, rule) && Lower(patch.user.userName.value) == patch.user.userName.value)
  }

  lemma PatchAttributeGood(patch: UserPatch, edit: Edit, ctx: Context)
    requires GoodPatch(patch, ctx.rule)
    ensures var r := PatchAttribute(patch, edit.verb, edit.path, edit.value, ctx);
            r.Ok? ==> GoodPatch(r.value, ctx.rule)
  {
    hide TargetOf, Lower, Accepted;
  }

  lemma {:induction false} PatchEditsGood(patch: UserPatch, edits: seq<Edit>, ctx: Context)
    requires GoodPatch(patch, ctx.rule)
    ensures PatchEdits(patch, edits, ctx).Ok? ==> GoodPatch(PatchEdits(patch, edits, ctx).value, ctx.rule)
    decreases |edits|
  {
    hide PatchAttribute, GoodPatch;
    if edits == [] {
    } else {
      PatchAttributeGood(patch, edits[0], ctx);
      var next := PatchAttribute(patch, edits[0].verb, edits[0].path, edits[0].value, ctx);
      if next.Ok? {
        PatchEditsGood(next.value, edits[1..], ctx);
      }
    }
  }

  lemma {:induction false} FoldIsGood(patch: UserPatch, operations: seq<Json>, ctx: Context)
    requires GoodPatch(patch, ctx.rule)
    ensures FoldOperations(patch, operations, ctx).Ok? ==> GoodPatch(FoldOperations(patch, operations, ctx).value, ctx.rule)
    decreases |operations|
  {
    hide PatchEdits, EditsOf, GoodPatch;
    if operations == [] {
    } else {
      var edits := EditsOf(operations[0]);
      if edits.Ok? {
        PatchEditsGood(patch, edits.value, ctx);
        var next := PatchEdits(patch, edits.value, ctx);
        if next.Ok? {
          FoldIsGood(next.value, operations[1..], ctx);
        }
      }
    }
  }
}
