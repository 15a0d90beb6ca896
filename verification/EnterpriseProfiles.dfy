/** Enterprise profile rows and the mutations that the SCIM endpoints apply to them. */
module EnterpriseProfiles {
  import opened Prelude
  import opened Text
  import opened ManagerHierarchy

  /** The five nullable text columns of an enterprise profile. */
  datatype Column = EmployeeNumber | Department | Division | Organization | CostCenter

  const COLUMNS: seq<Column> := [EmployeeNumber, Department, Division, Organization, CostCenter]

  /** A profile row; null columns are absent from `texts`. */
  datatype Profile = Profile(texts: map<Column, string>, manager: Option<UserId>)

  const EMPTY_PROFILE: Profile := Profile(map[], None)

  /** A mutation: an absent column is UNSET, a present one is set to a value or to null. */
  datatype Mutation = Mutation(texts: map<Column, Option<string>>, manager: Option<Option<UserId>>)

  const NO_CHANGES: Mutation := Mutation(map[], None)

  const CLEAR_ALL: Mutation := Mutation(map c: Column :: None, Some(None))

  /** Later settings win; columns the later mutation leaves unset keep the earlier setting. */
  function Merge(earlier: Mutation, later: Mutation): Mutation {
    Mutation(earlier.texts + later.texts, if later.manager.Some? then later.manager else earlier.manager)
  }

  /** The values to write: with `replace`, unset columns are written as null. */
  function Desired(m: Mutation, replace: bool): Mutation {
    if !replace then m
    else Mutation(map c: Column :: GetOr(m.texts, c, None), Some(if m.manager.Some? then m.manager.value else None))
  }

  function TextAfter(texts: map<Column, string>, desired: map<Column, Option<string>>, c: Column): Option<string> {
    if c in desired then desired[c] else Lookup(texts, c)
  }

  function Overwrite(texts: map<Column, string>, desired: map<Column, Option<string>>): map<Column, string> {
    map c: Column | TextAfter(texts, desired, c).Some? :: TextAfter(texts, desired, c).value
  }

  /** The row after writing the desired values. */
  function ApplyTo(p: Profile, desired: Mutation): Profile {
    Profile(Overwrite(p.texts, desired.texts), if desired.manager.Some? then desired.manager.value else p.manager)
  }

  predicate AllNull(m: Mutation) {
    (forall c :: c in m.texts ==> m.texts[c].None?) && (m.manager.Some? ==> m.manager.value.None?)
  }

  lemma OverwriteLookup(texts: map<Column, string>, desired: map<Column, Option<string>>, c: Column)
    ensures Lookup(Overwrite(texts, desired), c) == TextAfter(texts, desired, c)
  {
  }

  lemma SameTexts(a: map<Column, string>, b: map<Column, string>)
    requires forall c :: Lookup(a, c) == Lookup(b, c)
    ensures a == b
  {
    forall c: Column ensures c in a <==> c in b {
      assert Lookup(a, c) == Lookup(b, c);
    }
    forall c: Column | c in a ensures a[c] == b[c] {
      assert Lookup(a, c) == Lookup(b, c);
    }
  }

  /** Writing a merged mutation once equals writing the two mutations in order. */
  lemma MergeIsSequential(p: Profile, earlier: Mutation, later: Mutation)
    ensures ApplyTo(p, Merge(earlier, later)) == ApplyTo(ApplyTo(p, earlier), later)
  {
    forall c
      ensures Lookup(Overwrite(p.texts, earlier.texts + later.texts), c)
           == Lookup(Overwrite(Overwrite(p.texts, earlier.texts), later.texts), c)
    {
      OverwriteLookup(p.texts, earlier.texts, c);
    }
    SameTexts(Overwrite(p.texts, earlier.texts + later.texts), Overwrite(Overwrite(p.texts, earlier.texts), later.texts));
  }

  // ----- Change lists

  /** The columns among `cols`, in order, that the desired values change. */
  function ChangedColumns(texts: map<Column, string>, desired: map<Column, Option<string>>, cols: seq<Column>): seq<Column> {
    if cols == [] then []
    else
      var n := |cols| - 1;
      var c := cols[n];
      ChangedColumns(texts, desired, cols[..n]) +
      if c in desired && Lookup(texts, c) != desired[c] then [c] else []
  }

  predicate ManagerChanges(p: Profile, desired: Mutation) {
    desired.manager.Some? && desired.manager.value != p.manager
  }

  /** Nothing is reported as changed exactly when the row stays as it was. */
  lemma {:induction false} UnchangedColumns(texts: map<Column, string>, desired: map<Column, Option<string>>, cols: seq<Column>)
    ensures ChangedColumns(texts, desired, cols) == [] <==>
            forall c :: c in cols ==> TextAfter(texts, desired, c) == Lookup(texts, c)
  {
    if cols == [] {
    } else {
      var n := |cols| - 1;
      UnchangedColumns(texts, desired, cols[..n]);
      assert cols == cols[..n] + [cols[n]];
    }
  }

  lemma EveryColumnListed(c: Column)
    ensures c in COLUMNS
  {
    match c
    case EmployeeNumber => assert COLUMNS[0] == c;
    case Department => assert COLUMNS[1] == c;
    case Division => assert COLUMNS[2] == c;
    case Organization => assert COLUMNS[3] == c;
    case CostCenter => assert COLUMNS[4] == c;
  }

  lemma NoChangeIffSame(p: Profile, desired: Mutation)
    ensures (ChangedColumns(p.texts, desired.texts, COLUMNS) == [] && !ManagerChanges(p, desired)) <==>
            ApplyTo(p, desired) == p
  {
    UnchangedColumns(p.texts, desired.texts, COLUMNS);
    forall c: Column
      ensures c in COLUMNS && Lookup(Overwrite(p.texts, desired.texts), c) == TextAfter(p.texts, desired.texts, c)
    {
      EveryColumnListed(c);
      OverwriteLookup(p.texts, desired.texts, c);
    }
    if ChangedColumns(p.texts, desired.texts, COLUMNS) == [] {
      SameTexts(Overwrite(p.texts, desired.texts), p.texts);
    }
  }
}
