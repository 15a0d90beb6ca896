/** Rendering a user as a SCIM resource, and PUTting the rendered resource back. */
module ScimRoundTrip {
  import opened Prelude
  import opened Text
  import opened ManagerHierarchy
  import opened EnterpriseProfiles
  import opened ScimPayloads
  import opened EnterpriseUsers

  const USER_SCHEMA := "urn:ietf:params:scim:schemas:core:2.0:User"

  function TrimSlashes(url: string): string {
    if url != "" && url[|url| - 1] == '/' then TrimSlashes(url[..|url| - 1]) else url
  }

  function UserLocation(baseUrl: string, u: UserId): string {
    TrimSlashes(baseUrl) + "/scim/v2/Users/" + Decimal(u)
  }

  function TextFields(texts: map<Column, string>, cols: seq<Column>): Fields {
    if cols == [] then []
    else
      var n := |cols| - 1;
      TextFields(texts, cols[..n]) + if cols[n] in texts then [(ColumnName(cols[n]), Str(texts[cols[n]]))] else []
  }

  function ManagerField(users: Users, manager: Option<UserId>, baseUrl: string): Fields {
    if manager.None? then []
    else
      var m := manager.value;
      var reference := [("value", Str(Decimal(m))), ("$ref", Str(UserLocation(baseUrl, m)))];
      [("manager", Obj(reference + if m in users then [("displayName", Str(users[m].name))] else []))]
  }

  /** The enterprise extension of a user; absent when there is nothing to show. */
  function Extension(users: Users, profiles: Profiles, u: UserId, baseUrl: string): Option<Json> {
    if u !in profiles then None
    else
      var fields := TextFields(profiles[u].texts, COLUMNS) + ManagerField(users, profiles[u].manager, baseUrl);
      if fields == [] then None else Some(Obj(fields))
  }

  /** The extension is built by inserting the non-null members one after another. */
  method BuildExtension(users: Users, profiles: Profiles, u: UserId, baseUrl: string) returns (r: Option<Json>)
    ensures r == Extension(users, profiles, u, baseUrl)
  {
    if u !in profiles {
      return None;
    }
    var profile := profiles[u];
    var extension: Fields := [];
    for i := 0 to |COLUMNS|
      invariant extension == TextFields(profile.texts, COLUMNS[..i])
    {
      assert COLUMNS[..i + 1][..i] == COLUMNS[..i];
      if COLUMNS[i] in profile.texts {
        extension := extension + [(ColumnName(COLUMNS[i]), Str(profile.texts[COLUMNS[i]]))];
      }
    }
    assert COLUMNS[..|COLUMNS|] == COLUMNS;
    if profile.manager.Some? {
      extension := extension + ManagerField(users, profile.manager, baseUrl);
    }
    assert extension == TextFields(profile.texts, COLUMNS) + ManagerField(users, profile.manager, baseUrl);
    r := if extension == [] then None else Some(Obj(extension));
  }

  function Resource(d: Directory, u: UserId, baseUrl: string): Json
    requires u in d.users
  {
    var user := d.users[u];
    var extension := Extension(d.users, d.profiles, u, baseUrl);
    Obj([
      ("schemas", Arr([Str(USER_SCHEMA)] + if extension.None? then [] else [Str(ENTERPRISE_SCHEMA)])),
      ("id", Str(Decimal(u))),
      ("userName", Str(user.email)),
      ("name", Obj([("formatted", Str(user.name))])),
      ("displayName", Str(user.name)),
      ("active", Bool(user.active)),
      ("emails", Arr([Obj([("value", Str(user.email)), ("type", Str("work")), ("primary", Bool(true))])])),
      ("meta", Obj([("resourceType", Str("User")), ("location", Str(UserLocation(baseUrl, u)))]))
    ] + if extension.None? then [] else [(ENTERPRISE_SCHEMA, extension.value)])
  }

  /** The base URL without its trailing slashes, then the user's path. */
  lemma LocationMeaning(baseUrl: string, u: UserId) returns (k: nat)
    ensures k <= |baseUrl| && (forall i :: k <= i < |baseUrl| ==> baseUrl[i] == '/') && (k > 0 ==> baseUrl[k - 1] != '/')
    ensures UserLocation(baseUrl, u) == baseUrl[..k] + "/scim/v2/Users/" + Decimal(u)
  {
    k := SlashesCut(baseUrl);
  }

  lemma {:induction false} SlashesCut(url: string) returns (k: nat)
    ensures k <= |url| && TrimSlashes(url) == url[..k]
    ensures (forall i :: k <= i < |url| ==> url[i] == '/') && (k > 0 ==> url[k - 1] != '/')
  {
    if url == "" || url[|url| - 1] != '/' {
      k := |url|;
      assert url[..k] == url;
    } else {
      k := SlashesCut(url[..|url| - 1]);
    }
  }

  /** The manager is shown with id and location, and with the name when the row still exists. */
  lemma ManagerShown(users: Users, manager: UserId, baseUrl: string)
    ensures ManagerField(users, Some(manager), baseUrl) ==
      [("manager", Obj([("value", Str(Decimal(manager))), ("$ref", Str(UserLocation(baseUrl, manager)))]
                       + if manager in users then [("displayName", Str(users[manager].name))] else []))]
  {
  }

  // ----- Reading the extension back

  lemma {:induction false} GetAppend(a: Fields, b: Fields, key: string)
    ensures Get(a + b, key) == if Get(a, key).Some? then Get(a, key) else Get(b, key)
  {
    if a == [] {
      assert a + b == b;
    } else {
      assert (a + b)[1..] == a[1..] + b;
      GetAppend(a[1..], b, key);
    }
  }

  lemma ColumnNamesDiffer(c: Column, c': Column)
    ensures ColumnName(c) == ColumnName(c') ==> c == c'
    ensures ColumnName(c) != "manager"
  {
    assert |ColumnName(EmployeeNumber)| == 14 && |ColumnName(Organization)| == 12;
    assert ColumnName(Department)[2] == 'p' && ColumnName(CostCenter)[2] == 's' && ColumnName(Division)[2] == 'v';
    assert "manager"[0] == 'm';
    assert ColumnName(Department)[0] == 'd' && ColumnName(CostCenter)[0] == 'c' && ColumnName(Division)[0] == 'd';
    assert ColumnName(EmployeeNumber)[0] == 'e' && ColumnName(Organization)[0] == 'o';
  }

  lemma {:induction false} TextFieldLookup(texts: map<Column, string>, cols: seq<Column>, c: Column)
    ensures Get(TextFields(texts, cols), ColumnName(c)) == if c in cols && c in texts then Some(Str(texts[c])) else None
    ensures Get(TextFields(texts, cols), "manager") == None
    decreases |cols|
  {
    if cols == [] {
    } else {
      var n := |cols| - 1;
      var last := if cols[n] in texts then [(ColumnName(cols[n]), Str(texts[cols[n]]))] else [];
      TextFieldLookup(texts, cols[..n], c);
      GetAppend(TextFields(texts, cols[..n]), last, ColumnName(c));
      GetAppend(TextFields(texts, cols[..n]), last, "manager");
      ColumnNamesDiffer(c, cols[n]);
      ColumnNamesDiffer(cols[n], c);
      assert cols == cols[..n] + [cols[n]];
      if cols[n] in texts {
        assert last[1..] == [];
      }
    }
  }

  /** The mutation that an extension read from profile `p` parses to. */
  function AsMutation(p: Profile): Mutation {
    Mutation(map c | c in p.texts :: Some(p.texts[c]), if p.manager.Some? then Some(p.manager) else None)
  }

  lemma ManagerFieldLookup(users: Users, manager: Option<UserId>, baseUrl: string, c: Column)
    requires manager.Some? ==> manager.value >= 1
    ensures var fields := ManagerField(users, manager, baseUrl);
            && Get(fields, ColumnName(c)) == None
            && (manager.None? ==> Get(fields, "manager") == None)
            && (manager.Some? ==> Get(fields, "manager").Some? && ParseManager(Get(fields, "manager").value) == Ok(manager))
  {
    var fields := ManagerField(users, manager, baseUrl);
    ColumnNamesDiffer(c, c);
    if manager.Some? {
      assert fields[1..] == [];
      var reference := fields[0].1.fields;
      assert reference[0] == ("value", Str(Decimal(manager.value)));
      assert Get(reference, "value") == Some(Str(Decimal(manager.value)));
      ParseDecimal(manager.value);
    }
  }

  lemma ExtensionParsesBack(users: Users, profiles: Profiles, u: UserId, baseUrl: string)
    requires StoredTexts(profiles) && u in profiles
    requires profiles[u].manager.Some? ==> profiles[u].manager.value >= 1
    requires Extension(users, profiles, u, baseUrl).Some?
    ensures ParseExtension(Extension(users, profiles, u, baseUrl).value) == Ok(AsMutation(profiles[u]))
  {
    hide TextFields, ManagerField, ParseManager, Get, ColumnName;
    var p := profiles[u];
    var texts, manager := TextFields(p.texts, COLUMNS), ManagerField(users, p.manager, baseUrl);
    var fields := texts + manager;
    forall c: Column
      ensures Get(fields, ColumnName(c)) == if c in p.texts then Some(Str(p.texts[c])) else None
      ensures c in p.texts ==> ParseText(Str(p.texts[c])) == Ok(Some(p.texts[c]))
    {
      EveryColumnListed(c);
      TextFieldLookup(p.texts, COLUMNS, c);
      ManagerFieldLookup(users, p.manager, baseUrl, c);
      GetAppend(texts, manager, ColumnName(c));
      if c in p.texts {
        StripOfStripped(p.texts[c]);
      }
    }
    TextFieldLookup(p.texts, COLUMNS, Department);
    ManagerFieldLookup(users, p.manager, baseUrl, Department);
    GetAppend(texts, manager, "manager");
    assert (map c: Column | HasColumn(fields, c) :: ColumnValue(fields, c).value) == AsMutation(p).texts;
    ParseNullManager();
  }

  lemma ParseNullManager()
    ensures ParseManager(Null) == Ok(None)
  {
  }

  lemma {:induction false} NoTextFields(texts: map<Column, string>, cols: seq<Column>)
    requires TextFields(texts, cols) == []
    ensures forall c :: c in cols ==> c !in texts
    decreases |cols|
  {
    if cols == [] {
    } else {
      var n := |cols| - 1;
      NoTextFields(texts, cols[..n]);
      assert cols == cols[..n] + [cols[n]];
    }
  }

  /** No extension is shown exactly for an all-null profile. */
  lemma NothingToShow(users: Users, profiles: Profiles, u: UserId, baseUrl: string)
    requires Extension(users, profiles, u, baseUrl).None?
    ensures ProfileOf(profiles, u) == EMPTY_PROFILE
  {
    if u in profiles {
      NoTextFields(profiles[u].texts, COLUMNS);
      forall c: Column ensures c !in profiles[u].texts {
        EveryColumnListed(c);
      }
    }
  }

  // ----- Writing back what is already there

  lemma OwnManagerAccepted(d: Directory, u: UserId)
    requires Inv(d) && u in d.users
    ensures ManagerVerdict(d.users, d.profiles, u, ProfileOf(d.profiles, u).manager).None?
  {
    var manager := ProfileOf(d.profiles, u).manager;
    if manager.Some? {
      var m, boss := ManagersOf(d.users, d.profiles), manager.value;
      assert Up(m, u, 1) == Up(m, boss, 0);
      forall n: nat | n > 0
        ensures Up(m, boss, n) != Some(u)
      {
        assert Up(m, u, n + 1) == Up(m, boss, n);
      }
    }
  }

  lemma OwnValuesChangeNothing(d: Directory, u: UserId, desired: Mutation)
    requires Inv(d) && u in d.users
    requires ApplyTo(ProfileOf(d.profiles, u), desired) == ProfileOf(d.profiles, u)
    ensures Check(d.users, d.profiles, u, desired).None?
    ensures WrittenUsers(d.users, d.profiles, u, desired) == d.users
    ensures u in d.profiles ==> WrittenProfiles(d.profiles, u, desired) == d.profiles
    ensures EventsFor(d.profiles, u, desired) == [] && ChangesFor(d.profiles, u, desired) == []
  {
    hide Overwrite, Acyclic, ManagerVerdict, ChangedColumns;
    var p := ProfileOf(d.profiles, u);
    NoChangeIffSame(p, desired);
    OwnManagerAccepted(d, u);
    OverwriteLookup(p.texts, desired.texts, Department);
    OverwriteLookup(p.texts, desired.texts, EmployeeNumber);
    assert TextEvents(u, desired.texts, []) == [] && TextChanges([]) == [];
  }

  lemma AsMutationKeeps(p: Profile)
    ensures ApplyTo(p, Desired(AsMutation(p), true)) == p
  {
    SameTexts(Overwrite(p.texts, Desired(AsMutation(p), true).texts), p.texts);
  }

  lemma PutBackProfile(d: Directory, u: UserId, baseUrl: string)
    requires Inv(d) && u in d.users
    ensures var shown := Extension(d.users, d.profiles, u, baseUrl);
            shown.None? ==> ReplaceProfile(d, u, None) == Ok((d, [])) && ReplaceChanges(d.profiles, u, None) == []
    ensures var shown := Extension(d.users, d.profiles, u, baseUrl);
            shown.Some? ==>
              && ParseExtension(shown.value).Ok?
              && ReplaceProfile(d, u, Some(ParseExtension(shown.value).value)) == Ok((d, []))
              && ReplaceChanges(d.profiles, u, Some(ParseExtension(shown.value).value)) == []
  {
    hide ChangesFor, Extension, ParseExtension, Check, WrittenUsers, WrittenProfiles, EventsFor, ApplyTo, Desired, Acyclic;
    var p := ProfileOf(d.profiles, u);
    if Extension(d.users, d.profiles, u, baseUrl).None? {
      NothingToShow(d.users, d.profiles, u, baseUrl);
      SingleWrites(EMPTY_PROFILE, Department, None, None);
      DesiredWithoutReplace(CLEAR_ALL);
      OwnValuesChangeNothing(d, u, CLEAR_ALL);
    } else {
      ShownMeansStored(d.users, d.profiles, u, baseUrl);
      ExtensionParsesBack(d.users, d.profiles, u, baseUrl);
      AsMutationKeeps(p);
      OwnValuesChangeNothing(d, u, Desired(AsMutation(p), true));
    }
  }

  lemma ShownMeansStored(users: Users, profiles: Profiles, u: UserId, baseUrl: string)
    requires Extension(users, profiles, u, baseUrl).Some?
    ensures u in profiles
  {
  }

  lemma DesiredWithoutReplace(m: Mutation)
    ensures Desired(m, false) == m
  {
  }

  /** The validator accepts the stored e-mail and makes of it the same e-mail. */
  predicate SettledEmail(email: string, rule: EmailRule) {
    Strip(email) != "" && Address(Strip(email), rule) == Some(email)
  }

  /** The stored core attributes survive: a settled e-mail, and a name that is stripped, non-empty and
      at most 100 characters long. */
  predicate CoreSurvives(user: User, rule: EmailRule) {
    SettledEmail(user.email, rule) && GoodText(user.name)
  }

  lemma SurvivingIsReparsed(user: User, rule: EmailRule)
    ensures CoreSurvives(user, rule) <==>
      ParseUserName(Str(user.email), rule) == Ok(user.email) && ParseDisplayName(Str(user.name)) == Ok(user.name)
  {
    StripIsStripped(user.name);
    if Stripped(user.name) {
      StripOfStripped(user.name);
    }
  }

  lemma ResourceFields(d: Directory, u: UserId, baseUrl: string)
    requires u in d.users
    ensures var fields := Resource(d, u, baseUrl).fields;
            && Get(fields, "userName") == Some(Str(d.users[u].email))
            && Get(fields, "displayName") == Some(Str(d.users[u].name))
            && Get(fields, "active") == Some(Bool(d.users[u].active))
            && Get(fields, ENTERPRISE_SCHEMA) == Extension(d.users, d.profiles, u, baseUrl)
  {
    hide Extension;
    var fields := Resource(d, u, baseUrl).fields;
    assert |ENTERPRISE_SCHEMA| == 58;
    Skip(fields, "userName", 2);
    Skip(fields, "displayName", 4);
    Skip(fields, "active", 5);
    Skip(fields, ENTERPRISE_SCHEMA, 8);
  }

  /** Members with other names before position `n` do not matter. */
  lemma {:induction false} Skip(fields: Fields, key: string, n: nat)
    requires n <= |fields| && forall i :: 0 <= i < n ==> fields[i].0 != key
    ensures Get(fields, key) == Get(fields[n..], key)
  {
    if n == 0 {
    } else {
      Skip(fields[1..], key, n - 1);
      assert fields[1..][n - 1..] == fields[n..];
    }
  }

  /** PUTting back the resource just read is accepted and changes and publishes nothing exactly when
      the stored e-mail is settled and the stored name is stripped, non-empty and at most 100 characters. */
  lemma PutBackIsIdentity(w: World, u: UserId, baseUrl: string, rule: EmailRule)
    requires Inv(w.dir) && u in w.dir.users
    ensures PutStep(w, Decimal(u), Resource(w.dir, u, baseUrl), rule, true) == (w, None) <==> CoreSurvives(w.dir.users[u], rule)
  {
    hide CoreSurvives, Resource, Extension, ParseExtension, ReplaceProfile, ParseUserName, ParseDisplayName, Decimal, Get, Acyclic, UserNameTaken;
    var user := w.dir.users[u];
    var payload := Resource(w.dir, u, baseUrl);
    ResourceFields(w.dir, u, baseUrl);
    ResourceIsObject(w.dir, u, baseUrl);
    PutBackProfile(w.dir, u, baseUrl);
    ParseDecimal(u);
    NameIsOwn(w.dir, u);
    SurvivingIsReparsed(user, rule);
    assert w.published + [] + [] == w.published;
    if CoreSurvives(user, rule) {
      assert w.dir.users[u := user] == w.dir.users;
    } else {
      OtherwiseChanged(w, u, payload, rule);
    }
  }

  lemma ResourceIsObject(d: Directory, u: UserId, baseUrl: string)
    requires u in d.users
    ensures Resource(d, u, baseUrl).Obj?
  {
  }

  lemma NameIsOwn(d: Directory, u: UserId)
    requires Inv(d) && u in d.users
    ensures !UserNameTaken(d.users, d.users[u].email, Some(u))
    ensures u >= 1
  {
  }

  /** An accepted PUT stores exactly what the payload parses to. */
  lemma OtherwiseChanged(w: World, u: UserId, payload: Json, rule: EmailRule)
    requires Inv(w.dir) && u in w.dir.users && payload.Obj?
    requires GetOrNull(payload.fields, "userName") == Str(w.dir.users[u].email)
    requires GetOrNull(payload.fields, "displayName") == Str(w.dir.users[u].name)
    requires !CoreSurvives(w.dir.users[u], rule)
    ensures PutStep(w, Decimal(u), payload, rule, true) != (w, None)
  {
    hide CoreSurvives, ParseExtension, ParseUserName, ParseDisplayName, Decimal, Check, EventsFor, WrittenProfiles, NewDepartment, UserNameTaken, Acyclic;
    ParseDecimal(u);
    SurvivingIsReparsed(w.dir.users[u], rule);
    var data := ParseUserPayload(payload, rule);
    if data.Ok? {
      assert data.value.displayName != w.dir.users[u].name || Lower(data.value.userName) != w.dir.users[u].email;
    }
  }

  /** In every state reached from empty tables. */
  lemma ReachedPutBack(requests: seq<Request>, u: UserId, baseUrl: string, rule: EmailRule)
    requires u in Run(START, requests, rule).dir.users
    ensures var w := Run(START, requests, rule);
            PutStep(w, Decimal(u), Resource(w.dir, u, baseUrl), rule, true) == (w, None) <==> CoreSurvives(w.dir.users[u], rule)
  {
    hide Run, PutStep, Resource, CoreSurvives;
    ReachedInv(requests, rule);
    PutBackIsIdentity(Run(START, requests, rule), u, baseUrl, rule);
  }
}
