/** Granting and revoking access: the delegation gate, the existence gate and the policy gate over
    the assignment table, the delegation table and the append-only audit log. */
module AccessControl {
  import opened Prelude
  import opened AccessPolicy

  datatype Assignment = Assignment(user: UserId, entitlement: EntitlementId)

  datatype Action = Grant | Revoke | DelegatedActionAllowed | DelegatedActionDenied

  datatype Verdict = Succeeded | Denied | Allowed

  datatype AuditEvent =
    | AccessEvent(requester: UserId, target: UserId, action: Action, entitlement: EntitlementId, verdict: Verdict)
    | DelegationAssigned(actor: UserId, delegate: UserId)
    | DelegationRemoved(actor: UserId, delegate: UserId)
    | OtherEvent(name: string)

  /** `catalog` rows never change; users are edited by other endpoints. */
  datatype Catalog = Catalog(entitlements: map<EntitlementId, Entitlement>, applications: set<nat>, groups: set<nat>,
                             groupAuditSeeded: bool)

  datatype State = State(users: map<UserId, User>, assignments: seq<Assignment>, delegations: seq<Delegation>, audit: seq<AuditEvent>)

  /** `commits` is false when the database refuses the transaction, which undoes the whole step. */
  datatype Request =
    | GrantAccess(requester: UserId, target: UserId, entitlement: EntitlementId, now: int, commits: bool)
    | RevokeAccess(requester: UserId, target: UserId, entitlement: EntitlementId, now: int, commits: bool)
    | AssignDelegate(actor: UserId, delegate: UserId, scope: Scope, scopeId: nat, role: DelegationRole,
                     expiresAt: Option<int>, now: int, commits: bool)
    | RemoveDelegate(actor: UserId, index: nat, now: int, commits: bool)
    | PutUser(id: UserId, user: User, now: int)
    | RecordOther(name: string, now: int)

  datatype Outcome =
    | Done | Unauthenticated | NotFound | Forbidden | Conflict | PolicyDenied(reason: Reason) | DatabaseError
    | InactiveDelegate | AlreadyExpired | InvalidScope | ScopeNotFound | DuplicateDelegation | InactiveDelegation

  // ----- The delegation gate

  datatype Authorization = Global | Delegated(chosen: Delegation) | Unauthorized

  function Authorize(s: State, cat: Catalog, requester: UserId, id: EntitlementId, now: int): Authorization
    requires requester in s.users && id in cat.entitlements
  {
    if IsAdmin(s.users[requester]) then Global
    else
      var d := FirstPermitting(s.delegations, requester, now, id, cat.entitlements[id]);
      if d.Some? then Delegated(d.value) else Unauthorized
  }

  function RoleOf(a: Authorization): Option<DelegationRole> {
    if a.Delegated? then Some(a.chosen.role) else None
  }

  /** The audit row the gate itself writes. */
  function GateEvents(a: Authorization, requester: UserId, target: UserId, id: EntitlementId): seq<AuditEvent> {
    match a
    case Global => []
    case Delegated(_) => [AccessEvent(requester, target, DelegatedActionAllowed, id, Allowed)]
    case Unauthorized => [AccessEvent(requester, target, DelegatedActionDenied, id, Denied)]
  }

  // ----- Steps

  function IndexOf(rows: seq<Assignment>, a: Assignment): nat
    requires a in rows
    ensures IndexOf(rows, a) < |rows| && rows[IndexOf(rows, a)] == a
  {
    if rows[0] == a then 0 else 1 + IndexOf(rows[1..], a)
  }

  function Without(rows: seq<Assignment>, a: Assignment): seq<Assignment>
    requires a in rows
  {
    rows[..IndexOf(rows, a)] + rows[IndexOf(rows, a) + 1..]
  }

  function Committed(s: State, commits: bool, after: State, outcome: Outcome): (State, Outcome) {
    if commits then (after, outcome) else (s, DatabaseError)
  }

  /** One decided access request: the gate's audit row, then one row with the verdict. */
  function Decided(s: State, gate: seq<AuditEvent>, e: AuditEvent): State {
    s.(audit := s.audit + gate + [e])
  }

  function GrantStep(s: State, cat: Catalog, r: Request): (State, Outcome)
    requires r.GrantAccess?
  {
    var a := Assignment(r.target, r.entitlement);
    if r.requester !in s.users then (s, Unauthenticated)
    else if r.target !in s.users || r.entitlement !in cat.entitlements then (s, NotFound)
    else
      var auth := Authorize(s, cat, r.requester, r.entitlement, r.now);
      var gate := GateEvents(auth, r.requester, r.target, r.entitlement);
      var denial := AccessEvent(r.requester, r.target, Grant, r.entitlement, Denied);
      var reason := GrantPolicy(s.users[r.requester], s.users[r.target], cat.entitlements[r.entitlement], RoleOf(auth));
      if auth.Unauthorized? then Committed(s, r.commits, s.(audit := s.audit + gate), Forbidden)
      else if a in s.assignments then Committed(s, r.commits, Decided(s, gate, denial), Conflict)
      else if !Allows(reason) then Committed(s, r.commits, Decided(s, gate, denial), PolicyDenied(reason))
      else Committed(s, r.commits, Decided(s.(assignments := s.assignments + [a]), gate, denial.(verdict := Succeeded)), Done)
  }

  function RevokeStep(s: State, cat: Catalog, r: Request): (State, Outcome)
    requires r.RevokeAccess?
  {
    var a := Assignment(r.target, r.entitlement);
    if r.requester !in s.users then (s, Unauthenticated)
    else if r.target !in s.users || r.entitlement !in cat.entitlements then (s, NotFound)
    else
      var auth := Authorize(s, cat, r.requester, r.entitlement, r.now);
      var gate := GateEvents(auth, r.requester, r.target, r.entitlement);
      var denial := AccessEvent(r.requester, r.target, Revoke, r.entitlement, Denied);
      var reason := RevokePolicy(s.users[r.requester], cat.entitlements[r.entitlement], RoleOf(auth));
      if auth.Unauthorized? then Committed(s, r.commits, s.(audit := s.audit + gate), Forbidden)
      else if a !in s.assignments then Committed(s, r.commits, Decided(s, gate, denial), NotFound)
      else if !Allows(reason) then Committed(s, r.commits, Decided(s, gate, denial), PolicyDenied(reason))
      else Committed(s, r.commits, Decided(s.(assignments := Without(s.assignments, a)), gate, denial.(verdict := Succeeded)), Done)
  }

  predicate ScopeExists(cat: Catalog, scope: Scope, scopeId: nat) {
    match scope
    case ApplicationScope => scopeId in cat.applications
    case EntitlementScope => scopeId in cat.entitlements
    case GroupScope => scopeId in cat.groups
  }

  /** The audit row of a delegation needs an entitlement to refer to. */
  predicate HasAuditReference(cat: Catalog, scope: Scope, scopeId: nat) {
    match scope
    case ApplicationScope => exists e :: e in cat.entitlements && cat.entitlements[e].application == scopeId
    case EntitlementScope => scopeId in cat.entitlements
    case GroupScope => cat.groupAuditSeeded
  }

  predicate SameKey(a: Delegation, b: Delegation) {
    a.delegate == b.delegate && a.scope == b.scope && a.scopeId == b.scopeId && a.role == b.role
  }

  predicate HasEffectiveTwin(ds: seq<Delegation>, d: Delegation, now: int) {
    exists x :: x in ds && SameKey(x, d) && Effective(x, now)
  }

  /** What the table's unique constraint keeps apart; it includes the active flag. */
  predicate Clashes(a: Delegation, b: Delegation) {
    SameKey(a, b) && a.active == b.active
  }

  predicate UniqueRows(ds: seq<Delegation>) {
    forall i, j :: 0 <= i < j < |ds| ==> !Clashes(ds[i], ds[j])
  }

  function AssignStep(s: State, cat: Catalog, r: Request): (State, Outcome)
    requires r.AssignDelegate?
  {
    var d := Delegation(r.delegate, r.scope, r.scopeId, r.role, r.now, r.expiresAt, true);
    if r.delegate !in s.users then (s, NotFound)
    else if !s.users[r.delegate].active then (s, InactiveDelegate)
    else if r.expiresAt.Some? && r.expiresAt.value <= r.now then (s, AlreadyExpired)
    else if !RoleFitsScope(r.scope, r.role) then (s, InvalidScope)
    else if !ScopeExists(cat, r.scope, r.scopeId) then (s, ScopeNotFound)
    else if HasEffectiveTwin(s.delegations, d, r.now) then (s, DuplicateDelegation)
    else if !UniqueRows(s.delegations + [d]) then (s, DatabaseError)
    else if !HasAuditReference(cat, r.scope, r.scopeId) then (s, ScopeNotFound)
    else Committed(s, r.commits,
                   s.(delegations := s.delegations + [d], audit := s.audit + [DelegationAssigned(r.actor, r.delegate)]), Done)
  }

  function RemoveStep(s: State, cat: Catalog, r: Request): (State, Outcome)
    requires r.RemoveDelegate?
  {
    if r.index >= |s.delegations| then (s, NotFound)
    else
      var d := s.delegations[r.index];
      if !d.active then (s, InactiveDelegation)
      else if !UniqueRows(s.delegations[r.index := d.(active := false)]) then (s, DatabaseError)
      else if !HasAuditReference(cat, d.scope, d.scopeId) then (s, ScopeNotFound)
      else Committed(s, r.commits,
                     s.(delegations := s.delegations[r.index := d.(active := false)],
                        audit := s.audit + [DelegationRemoved(r.actor, d.delegate)]), Done)
  }

  function Step(s: State, cat: Catalog, r: Request): (State, Outcome) {
    match r
    case GrantAccess(_, _, _, _, _) => GrantStep(s, cat, r)
    case RevokeAccess(_, _, _, _, _) => RevokeStep(s, cat, r)
    case AssignDelegate(_, _, _, _, _, _, _, _) => AssignStep(s, cat, r)
    case RemoveDelegate(_, _, _, _) => RemoveStep(s, cat, r)
    case PutUser(id, user, _) => (s.(users := s.users[id := user]), Done)
    case RecordOther(name, _) => (s.(audit := s.audit + [OtherEvent(name)]), Done)
  }

  /** The state after a run, the last request taken last. */
  function Run(s: State, cat: Catalog, requests: seq<Request>): State {
    if requests == [] then s
    else
      var n := |requests| - 1;
      Step(Run(s, cat, requests[..n]), cat, requests[n]).0
  }

  const EMPTY: State := State(map[], [], [], [])

  // ----- The audit log replayed

  /** Replays succeeded grants and revokes; fails when a grant repeats a live assignment or a
      revoke names one that is not live. */
  function Replay(log: seq<AuditEvent>): Option<set<Assignment>> {
    if log == [] then Some({})
    else
      var n := |log| - 1;
      var before := Replay(log[..n]);
      if before.None? || !log[n].AccessEvent? || !log[n].verdict.Succeeded? then before
      else
        var a := Assignment(log[n].target, log[n].entitlement);
        match log[n].action
        case Grant => if a in before.value then None else Some(before.value + {a})
        case Revoke => if a in before.value then Some(before.value - {a}) else None
        case _ => before
  }

  ghost function Live(s: State): set<Assignment> {
    set a | a in s.assignments
  }

  ghost predicate LogAgrees(s: State) {
    Distinct(s.assignments) && Replay(s.audit) == Some(Live(s))
  }

  lemma ReplayAppend(log: seq<AuditEvent>, e: AuditEvent)
    ensures Replay(log + [e]) ==
      var before := Replay(log);
      if before.None? || !e.AccessEvent? || !e.verdict.Succeeded? then before
      else
        var a := Assignment(e.target, e.entitlement);
        match e.action
        case Grant => if a in before.value then None else Some(before.value + {a})
        case Revoke => if a in before.value then Some(before.value - {a}) else None
        case _ => before
  {
    assert (log + [e])[..|log|] == log;
  }

  lemma GateIsSilent(log: seq<AuditEvent>, a: Authorization, requester: UserId, target: UserId, id: EntitlementId)
    ensures Replay(log + GateEvents(a, requester, target, id)) == Replay(log)
  {
    if a.Global? {
      assert log + [] == log;
    } else {
      ReplayAppend(log, GateEvents(a, requester, target, id)[0]);
    }
  }

  lemma RowRemoved(rows: seq<Assignment>, a: Assignment)
    requires Distinct(rows) && a in rows
    ensures Distinct(Without(rows, a)) && (set x | x in Without(rows, a)) == (set x | x in rows) - {a}
  {
    var i := IndexOf(rows, a);
    forall x ensures x in Without(rows, a) <==> x in rows && x != a {
      if x in rows && x != a {
        var k :| 0 <= k < |rows| && rows[k] == x;
        assert Without(rows, a)[if k < i then k else k - 1] == x;
      }
    }
  }

  lemma RowAdded(rows: seq<Assignment>, a: Assignment)
    requires Distinct(rows) && a !in rows
    ensures Distinct(rows + [a]) && (set x | x in rows + [a]) == (set x | x in rows) + {a}
  {
  }

  lemma AccessStepAgrees(s: State, cat: Catalog, r: Request)
    requires LogAgrees(s) && (r.GrantAccess? || r.RevokeAccess?)
    ensures LogAgrees(Step(s, cat, r).0)
  {
    hide GrantPolicy, RevokePolicy, Distinct, Replay, Authorize, GateEvents, Without;
    if r.requester in s.users && r.target in s.users && r.entitlement in cat.entitlements {
      var a := Assignment(r.target, r.entitlement);
      var auth := Authorize(s, cat, r.requester, r.entitlement, r.now);
      var gate := GateEvents(auth, r.requester, r.target, r.entitlement);
      var action := if r.GrantAccess? then Grant else Revoke;
      GateIsSilent(s.audit, auth, r.requester, r.target, r.entitlement);
      ReplayAppend(s.audit + gate, AccessEvent(r.requester, r.target, action, r.entitlement, Denied));
      ReplayAppend(s.audit + gate, AccessEvent(r.requester, r.target, action, r.entitlement, Succeeded));
      if a in s.assignments {
        RowRemoved(s.assignments, a);
      } else {
        RowAdded(s.assignments, a);
      }
    }
  }

  lemma StepAgrees(s: State, cat: Catalog, r: Request)
    requires LogAgrees(s)
    ensures LogAgrees(Step(s, cat, r).0)
  {
    match r
    case GrantAccess(_, _, _, _, _) => AccessStepAgrees(s, cat, r);
    case RevokeAccess(_, _, _, _, _) => AccessStepAgrees(s, cat, r);
    case AssignDelegate(_, _, _, _, _, _, _, _) => ReplayAppend(s.audit, DelegationAssigned(r.actor, r.delegate));
    case RemoveDelegate(_, _, _, _) =>
      if r.index < |s.delegations| {
        ReplayAppend(s.audit, DelegationRemoved(r.actor, s.delegations[r.index].delegate));
      }
    case PutUser(_, _, _) =>
    case RecordOther(name, _) => ReplayAppend(s.audit, OtherEvent(name));
  }

  /** In every reachable state the live assignments have no duplicates and equal the replayed
      audit log, in which no grant is redundant and no revoke is unfounded. */
  lemma {:induction false} RunAgrees(cat: Catalog, requests: seq<Request>)
    ensures LogAgrees(Run(EMPTY, cat, requests))
    decreases |requests|
  {
    if requests != [] {
      var n := |requests| - 1;
      RunAgrees(cat, requests[..n]);
      StepAgrees(Run(EMPTY, cat, requests[..n]), cat, requests[n]);
    } else {
      assert Live(EMPTY) == {};
    }
  }

  // ----- Who may grant

  /** The requester is a global administrator, or the first delegation that permits the change
      also has the rank the entitlement asks for. */
  ghost predicate MayChange(s: State, cat: Catalog, requester: UserId, id: EntitlementId, now: int)
    requires requester in s.users && id in cat.entitlements
  {
    var e := cat.entitlements[id];
    IsAdmin(s.users[requester]) ||
    var d := FirstPermitting(s.delegations, requester, now, id, e);
    d.Some? && (IsAdministratorEntitlement(e) ==> Administers(d.value.role))
  }

  ghost predicate LegitimateGrant(s: State, cat: Catalog, requester: UserId, target: UserId, id: EntitlementId, now: int) {
    && requester in s.users && target in s.users && id in cat.entitlements
    && s.users[requester].active && s.users[target].active
    && (IsFinancePortal(cat.entitlements[id]) ==> InFinance(s.users[target]))
    && MayChange(s, cat, requester, id, now)
  }

  lemma PolicyMeaning(requester: User, target: User, e: Entitlement, delegation: Option<DelegationRole>)
    requires delegation.Some? ==> ChangesAccess(delegation.value)
    ensures Allows(GrantPolicy(requester, target, e, delegation)) <==>
      && requester.active && target.active
      && (IsFinancePortal(e) ==> InFinance(target))
      && (if delegation.Some? then IsAdministratorEntitlement(e) ==> Administers(delegation.value)
          else IsAdmin(requester) || (OperatorRoleOf(requester.role).Helpdesk? && !IsAdministratorEntitlement(e)))
    ensures Allows(RevokePolicy(requester, e, delegation)) <==>
      && requester.active
      && (if delegation.Some? then IsAdministratorEntitlement(e) ==> Administers(delegation.value)
          else IsAdmin(requester) || (OperatorRoleOf(requester.role).Helpdesk? && !IsAdministratorEntitlement(e)))
  {
    hide OperatorRoleOf, IsAdministratorEntitlement, IsFinancePortal, InFinance;
  }

  /** A grant goes through exactly when it is legitimate, new and committed. */
  lemma GrantSucceedsIff(s: State, cat: Catalog, r: Request)
    requires r.GrantAccess?
    ensures GrantStep(s, cat, r).1 == Done <==>
      && LegitimateGrant(s, cat, r.requester, r.target, r.entitlement, r.now)
      && Assignment(r.target, r.entitlement) !in s.assignments
      && r.commits
  {
    hide GrantPolicy, OperatorRoleOf, IsAdministratorEntitlement, IsFinancePortal, InFinance, GateEvents;
    if r.requester in s.users && r.target in s.users && r.entitlement in cat.entitlements {
      var auth := Authorize(s, cat, r.requester, r.entitlement, r.now);
      PolicyMeaning(s.users[r.requester], s.users[r.target], cat.entitlements[r.entitlement], RoleOf(auth));
    }
  }

  /** A revocation goes through exactly when the requester is active, may change the entitlement,
      the assignment is live and the step commits; the target's state does not matter. */
  lemma RevokeSucceedsIff(s: State, cat: Catalog, r: Request)
    requires r.RevokeAccess?
    ensures RevokeStep(s, cat, r).1 == Done <==>
      && r.requester in s.users && r.target in s.users && r.entitlement in cat.entitlements
      && s.users[r.requester].active
      && MayChange(s, cat, r.requester, r.entitlement, r.now)
      && Assignment(r.target, r.entitlement) in s.assignments
      && r.commits
  {
    hide RevokePolicy, OperatorRoleOf, IsAdministratorEntitlement, GateEvents;
    if r.requester in s.users && r.target in s.users && r.entitlement in cat.entitlements {
      var auth := Authorize(s, cat, r.requester, r.entitlement, r.now);
      PolicyMeaning(s.users[r.requester], s.users[r.target], cat.entitlements[r.entitlement], RoleOf(auth));
    }
  }

  /** The policy would let a help-desk operator through, but without a permitting delegation the
      request is refused before the policy is asked. */
  lemma HelpdeskAloneNeverSuffices(s: State, cat: Catalog, r: Request)
    requires r.GrantAccess? && r.requester in s.users && r.target in s.users && r.entitlement in cat.entitlements
    requires OperatorRoleOf(s.users[r.requester].role).Helpdesk? && s.users[r.requester].active && s.users[r.target].active
    requires !IsAdministratorEntitlement(cat.entitlements[r.entitlement]) && !IsFinancePortal(cat.entitlements[r.entitlement])
    requires forall d :: d in s.delegations ==> !Permits(d, r.requester, r.now, r.entitlement, cat.entitlements[r.entitlement])
    ensures Allows(GrantPolicy(s.users[r.requester], s.users[r.target], cat.entitlements[r.entitlement], None))
    ensures GrantStep(s, cat, r).1 == if r.commits then Forbidden else DatabaseError
  {
    hide OperatorRoleOf, IsAdministratorEntitlement, IsFinancePortal, InFinance;
  }

  // ----- Where a live assignment comes from

  /** Request `k` granted `a` legitimately, and `a` has been live ever since. */
  ghost predicate GrantedBy(cat: Catalog, requests: seq<Request>, k: nat, a: Assignment) {
    && k < |requests| && requests[k].GrantAccess? && requests[k].target == a.user && requests[k].entitlement == a.entitlement
    && var r, s := requests[k], Run(EMPTY, cat, requests[..k]);
       && a !in s.assignments
       && LegitimateGrant(s, cat, r.requester, r.target, r.entitlement, r.now)
       && forall j :: k < j <= |requests| ==> a in Run(EMPTY, cat, requests[..j]).assignments
  }

  lemma OnlyGrantsAdd(s: State, cat: Catalog, r: Request, a: Assignment)
    requires a !in s.assignments && a in Step(s, cat, r).0.assignments
    ensures r.GrantAccess? && r.target == a.user && r.entitlement == a.entitlement
    ensures GrantStep(s, cat, r).1 == Done
  {
    hide GrantPolicy, RevokePolicy, Authorize, GateEvents, HasAuditReference, HasEffectiveTwin, ScopeExists;
  }

  /** Every live assignment was created by a legitimate grant. */
  lemma {:induction false} LiveMeansGranted(cat: Catalog, requests: seq<Request>, a: Assignment) returns (k: nat)
    requires a in Run(EMPTY, cat, requests).assignments
    ensures GrantedBy(cat, requests, k, a)
    decreases |requests|
  {
    hide LegitimateGrant, Step;
    var n := |requests| - 1;
    var prefix := requests[..n];
    if a in Run(EMPTY, cat, prefix).assignments {
      k := LiveMeansGranted(cat, prefix, a);
      assert prefix[..k] == requests[..k];
      forall j | k < j <= |requests|
        ensures a in Run(EMPTY, cat, requests[..j]).assignments
      {
        if j <= n {
          assert prefix[..j] == requests[..j];
        } else {
          assert requests[..j] == requests;
        }
      }
    } else {
      k := n;
      OnlyGrantsAdd(Run(EMPTY, cat, prefix), cat, requests[n], a);
      GrantSucceedsIff(Run(EMPTY, cat, prefix), cat, requests[n]);
      assert requests[..n + 1] == requests;
    }
  }

  // ----- Delegations over time

  /** When a later row with the same key was created, the earlier one was already ineffective. */
  ghost predicate NeverOverlap(ds: seq<Delegation>) {
    forall i, j :: 0 <= i < j < |ds| && SameKey(ds[i], ds[j]) ==> !Effective(ds[i], ds[j].createdAt)
  }

  ghost predicate CreatedBy(ds: seq<Delegation>, now: int) {
    forall d :: d in ds ==> d.createdAt <= now
  }

  /** Request times never go back. */
  ghost predicate ClockRuns(start: int, requests: seq<Request>) {
    forall i :: 0 <= i < |requests| ==> start <= requests[i].now && (i > 0 ==> requests[i - 1].now <= requests[i].now)
  }

  function LastTime(start: int, requests: seq<Request>): int {
    if requests == [] then start else requests[|requests| - 1].now
  }

  lemma StepNeverOverlaps(s: State, cat: Catalog, r: Request, before: int)
    requires NeverOverlap(s.delegations) && CreatedBy(s.delegations, before) && before <= r.now
    ensures NeverOverlap(Step(s, cat, r).0.delegations) && CreatedBy(Step(s, cat, r).0.delegations, r.now)
  {
    hide GrantPolicy, RevokePolicy, Authorize, GateEvents, HasAuditReference, ScopeExists, Without;
    var ds, ds' := s.delegations, Step(s, cat, r).0.delegations;
    match r
    case AssignDelegate(_, _, _, _, _, _, _, _) =>
      forall i | 0 <= i < |ds| ensures ds[i] in ds {}
    case RemoveDelegate(_, _, _, _) =>
      forall i | 0 <= i < |ds'|
        ensures SameKey(ds'[i], ds[i]) && ds'[i].createdAt == ds[i].createdAt && (forall t :: Effective(ds'[i], t) ==> Effective(ds[i], t))
      {
      }
      forall d | d in ds' ensures d.createdAt <= r.now {
        var i :| 0 <= i < |ds'| && ds'[i] == d;
        assert ds[i] in ds;
      }
    case _ =>
  }

  lemma {:induction false} RunNeverOverlaps(cat: Catalog, requests: seq<Request>, start: int)
    requires ClockRuns(start, requests)
    ensures NeverOverlap(Run(EMPTY, cat, requests).delegations)
    ensures CreatedBy(Run(EMPTY, cat, requests).delegations, LastTime(start, requests))
    decreases |requests|
  {
    hide Step;
    if requests == [] {
    } else {
      var n := |requests| - 1;
      RunNeverOverlaps(cat, requests[..n], start);
      StepNeverOverlaps(Run(EMPTY, cat, requests[..n]), cat, requests[n], LastTime(start, requests[..n]));
    }
  }

  /** From the last request on, no two effective delegations share delegate, scope and role. */
  lemma EffectiveDelegationsAreUnique(cat: Catalog, requests: seq<Request>, start: int, now: int, i: nat, j: nat)
    requires ClockRuns(start, requests) && LastTime(start, requests) <= now
    requires var ds := Run(EMPTY, cat, requests).delegations;
             i < j < |ds| && Effective(ds[i], now) && Effective(ds[j], now)
    ensures var ds := Run(EMPTY, cat, requests).delegations; !SameKey(ds[i], ds[j])
  {
    RunNeverOverlaps(cat, requests, start);
    var ds := Run(EMPTY, cat, requests).delegations;
    assert ds[j] in ds;
  }

  /** Adding a delegation never turns a successful grant or revoke at the same instant into a failure. */
  lemma AddingDelegationIsMonotone(s: State, cat: Catalog, d: Delegation, r: Request)
    requires r.GrantAccess? || r.RevokeAccess?
    requires Step(s, cat, r).1 == Done
    ensures Step(s.(delegations := s.delegations + [d]), cat, r).1 == Done
    ensures Step(s.(delegations := s.delegations + [d]), cat, r).0.assignments == Step(s, cat, r).0.assignments
  {
    hide GrantPolicy, RevokePolicy, OperatorRoleOf, FirstPermitting;
    LaterDelegationsDoNotDecide(s.delegations, [d], r.requester, r.now, r.entitlement, cat.entitlements[r.entitlement]);
  }

  // ----- The unique constraint on delegations

  lemma StepKeepsRowsUnique(s: State, cat: Catalog, r: Request)
    requires UniqueRows(s.delegations)
    ensures UniqueRows(Step(s, cat, r).0.delegations)
  {
    hide UniqueRows, GrantPolicy, RevokePolicy, Authorize, GateEvents, HasAuditReference, HasEffectiveTwin, ScopeExists, Without;
  }

  /** In every reachable state a key has at most one active and at most one inactive row. */
  lemma {:induction false} RunKeepsRowsUnique(cat: Catalog, requests: seq<Request>)
    ensures UniqueRows(Run(EMPTY, cat, requests).delegations)
    decreases |requests|
  {
    hide Step, UniqueRows;
    if requests == [] {
      NoRowsUnique();
    } else {
      var n := |requests| - 1;
      RunKeepsRowsUnique(cat, requests[..n]);
      StepKeepsRowsUnique(Run(EMPTY, cat, requests[..n]), cat, requests[n]);
    }
  }

  lemma NoRowsUnique()
    ensures UniqueRows(EMPTY.delegations)
  {
  }

  lemma AppendKeepsUnique(ds: seq<Delegation>, d: Delegation)
    requires UniqueRows(ds)
    ensures UniqueRows(ds + [d]) <==> forall x :: x in ds ==> !Clashes(x, d)
  {
    var more := ds + [d];
    if UniqueRows(more) {
      forall x | x in ds ensures !Clashes(x, d) {
        var i :| 0 <= i < |ds| && ds[i] == x;
        assert more[i] == x && more[|ds|] == d;
      }
    }
  }

  lemma UpdateKeepsUnique(ds: seq<Delegation>, k: nat, d: Delegation)
    requires UniqueRows(ds) && k < |ds|
    ensures UniqueRows(ds[k := d]) <==> forall j :: 0 <= j < |ds| && j != k ==> !Clashes(ds[j], d)
  {
    var updated := ds[k := d];
    if UniqueRows(updated) {
      forall j | 0 <= j < |ds| && j != k ensures !Clashes(ds[j], d) {
        assert updated[j] == ds[j] && updated[k] == d;
      }
    }
    if forall j :: 0 <= j < |ds| && j != k ==> !Clashes(ds[j], d) {
      forall i, j | 0 <= i < j < |updated| ensures !Clashes(updated[i], updated[j]) {
        assert i != k ==> updated[i] == ds[i];
        assert j != k ==> updated[j] == ds[j];
      }
    }
  }

  predicate HasRow(ds: seq<Delegation>, d: Delegation, active: bool) {
    exists x :: x in ds && SameKey(x, d) && x.active == active
  }

  /** After any run, an assignment succeeds exactly when delegate, expiry, scope and audit reference
      are in order, the step commits, and no active row has its key: an expired row that is still
      active stands in the way as much as an effective one. */
  lemma AssignSucceedsIff(cat: Catalog, requests: seq<Request>, r: Request)
    requires r.AssignDelegate?
    ensures var s := Run(EMPTY, cat, requests);
            var d := Delegation(r.delegate, r.scope, r.scopeId, r.role, r.now, r.expiresAt, true);
            AssignStep(s, cat, r).1 == Done <==>
              && r.delegate in s.users && s.users[r.delegate].active
              && (r.expiresAt.Some? ==> r.expiresAt.value > r.now)
              && RoleFitsScope(r.scope, r.role) && ScopeExists(cat, r.scope, r.scopeId) && HasAuditReference(cat, r.scope, r.scopeId)
              && !HasRow(s.delegations, d, true)
              && r.commits
  {
    hide Run, UniqueRows, ScopeExists, HasAuditReference, SameKey;
    RunKeepsRowsUnique(cat, requests);
    AppendKeepsUnique(Run(EMPTY, cat, requests).delegations, Delegation(r.delegate, r.scope, r.scopeId, r.role, r.now, r.expiresAt, true));
  }

  /** After any run, a removal succeeds exactly when the row exists and is active, its scope has an
      audit reference, the step commits, and no row with its key has been removed before. */
  lemma RemoveSucceedsIff(cat: Catalog, requests: seq<Request>, r: Request)
    requires r.RemoveDelegate?
    ensures var s := Run(EMPTY, cat, requests);
            RemoveStep(s, cat, r).1 == Done <==>
              && r.index < |s.delegations| && s.delegations[r.index].active
              && HasAuditReference(cat, s.delegations[r.index].scope, s.delegations[r.index].scopeId)
              && !HasRow(s.delegations, s.delegations[r.index], false)
              && r.commits
  {
    hide Run, UniqueRows, HasAuditReference, SameKey;
    RunKeepsRowsUnique(cat, requests);
    var ds := Run(EMPTY, cat, requests).delegations;
    if r.index < |ds| && ds[r.index].active {
      var d := ds[r.index].(active := false);
      UpdateKeepsUnique(ds, r.index, d);
      KeyIgnoresActive(ds, r.index);
      forall j | 0 <= j < |ds| ensures ds[j] in ds {}
    }
  }

  lemma KeyIgnoresActive(ds: seq<Delegation>, k: nat)
    requires k < |ds|
    ensures forall x :: SameKey(x, ds[k].(active := false)) == SameKey(x, ds[k])
  {
  }

  /** Rows are never deleted, and an inactive row never changes again. */
  lemma {:induction false} InactiveRowsStay(s: State, cat: Catalog, more: seq<Request>, i: nat)
    requires i < |s.delegations| && !s.delegations[i].active
    ensures var ds := Run(s, cat, more).delegations; i < |ds| && ds[i] == s.delegations[i]
    decreases |more|
  {
    hide GrantPolicy, RevokePolicy, Authorize, GateEvents, HasAuditReference, HasEffectiveTwin, ScopeExists, Without, UniqueRows;
    if more == [] {
    } else {
      InactiveRowsStay(s, cat, more[..|more| - 1], i);
    }
  }

  lemma {:induction false} RunConcat(s: State, cat: Catalog, a: seq<Request>, b: seq<Request>)
    ensures Run(s, cat, a + b) == Run(Run(s, cat, a), cat, b)
    decreases |b|
  {
    hide Step;
    if b == [] {
      assert a + b == a;
    } else {
      var n := |b| - 1;
      assert (a + b)[..|a| + n] == a + b[..n];
      RunConcat(s, cat, a, b[..n]);
    }
  }

  /** A delegation that was removed once can be assigned again, but whatever happens later, no row with
      its key can ever be removed a second time. */
  lemma SecondRemovalNeverSucceeds(cat: Catalog, requests: seq<Request>, more: seq<Request>, i: nat, r: Request)
    requires r.RemoveDelegate?
    requires var ds := Run(EMPTY, cat, requests).delegations; i < |ds| && !ds[i].active
    requires var later := Run(EMPTY, cat, requests + more).delegations;
             r.index < |later| && SameKey(Run(EMPTY, cat, requests).delegations[i], later[r.index])
    ensures RemoveStep(Run(EMPTY, cat, requests + more), cat, r).1 != Done
  {
    hide Run, RemoveStep, SameKey;
    RunConcat(EMPTY, cat, requests, more);
    InactiveRowsStay(Run(EMPTY, cat, requests), cat, more, i);
    RemoveSucceedsIff(cat, requests + more, r);
    assert Run(EMPTY, cat, requests + more).delegations[i] in Run(EMPTY, cat, requests + more).delegations;
  }

  lemma RunAppend(s: State, cat: Catalog, requests: seq<Request>, r: Request)
    ensures Run(s, cat, requests + [r]) == Step(Run(s, cat, requests), cat, r).0
  {
    assert (requests + [r])[..|requests|] == requests;
  }

  /** Assign, remove, assign again: all accepted. */
  function Reassigned(user: UserId, row: User, id: EntitlementId): seq<Request> {
    var assign := AssignDelegate(user, user, EntitlementScope, id, ApplicationOwner, None, 0, true);
    [PutUser(user, row, 0)] + [assign] + [RemoveDelegate(user, 0, 0, true)] + [assign]
  }

  /** From empty tables, for every entitlement and active user: after that run the user holds an
      effective delegation that the next removal cannot take away. */
  lemma SecondRemovalIsReached(cat: Catalog, id: EntitlementId, user: UserId, row: User)
    requires id in cat.entitlements && row.active
    ensures var s := Run(EMPTY, cat, Reassigned(user, row, id));
            && |s.delegations| == 2 && Effective(s.delegations[1], 0) && s.delegations[1].delegate == user
            && RemoveStep(s, cat, RemoveDelegate(user, 1, 0, true)) == (s, DatabaseError)
  {
    hide Run;
    var d := Delegation(user, EntitlementScope, id, ApplicationOwner, 0, None, true);
    var assign := AssignDelegate(user, user, EntitlementScope, id, ApplicationOwner, None, 0, true);
    var r1 := [PutUser(user, row, 0)];
    RunAppend(EMPTY, cat, [], PutUser(user, row, 0));
    assert [] + r1 == r1;
    RunNothing(cat);
    RunAppend(EMPTY, cat, r1, assign);
    assert Run(EMPTY, cat, r1 + [assign]).delegations == [d];
    RunAppend(EMPTY, cat, r1 + [assign], RemoveDelegate(user, 0, 0, true));
    var r3 := r1 + [assign] + [RemoveDelegate(user, 0, 0, true)];
    assert Run(EMPTY, cat, r3).delegations == [d.(active := false)];
    RunAppend(EMPTY, cat, r3, assign);
    var s := Run(EMPTY, cat, r3 + [assign]);
    assert s.delegations == [d.(active := false), d];
    var twice := s.delegations[1 := d.(active := false)];
    assert Clashes(twice[0], twice[1]);
  }

  lemma RunNothing(cat: Catalog)
    ensures Run(EMPTY, cat, []) == EMPTY
  {
  }

  /** The lowest id decides even when it is the weaker delegation: on an administrator entitlement
      an effective owner delegation is shadowed by an older help-desk one, and removing the older
      one turns the refusal into a grant. */
  lemma OlderDelegationShadows(s: State, cat: Catalog, r: Request, help: Delegation, owner: Delegation)
    requires r.GrantAccess? && r.requester in s.users && r.target in s.users && r.entitlement in cat.entitlements && r.commits
    requires !IsAdmin(s.users[r.requester]) && s.users[r.requester].active && s.users[r.target].active
    requires var e := cat.entitlements[r.entitlement];
             && IsAdministratorEntitlement(e) && !IsFinancePortal(e)
             && s.delegations == [help, owner] && help.role.HelpdeskDelegate? && owner.role.ApplicationOwner?
             && Permits(help, r.requester, r.now, r.entitlement, e) && Permits(owner, r.requester, r.now, r.entitlement, e)
    requires Assignment(r.target, r.entitlement) !in s.assignments && HasAuditReference(cat, help.scope, help.scopeId)
    ensures GrantStep(s, cat, r).1 == PolicyDenied(DelegationLacksAdministrator)
    ensures GrantStep(RemoveStep(s, cat, RemoveDelegate(r.requester, 0, r.now, true)).0, cat, r).1 == Done
  {
    hide OperatorRoleOf, IsAdministratorEntitlement, IsFinancePortal, InFinance, HasAuditReference, Covers;
    var e := cat.entitlements[r.entitlement];
    assert FirstPermitting(s.delegations, r.requester, r.now, r.entitlement, e) == Some(help);
    var after := RemoveStep(s, cat, RemoveDelegate(r.requester, 0, r.now, true)).0;
    assert after.delegations == [help.(active := false), owner];
    assert after.delegations[1..] == [owner];
    assert FirstPermitting([owner], r.requester, r.now, r.entitlement, e) == Some(owner);
    assert FirstPermitting(after.delegations, r.requester, r.now, r.entitlement, e) == Some(owner);
    GrantSucceedsIff(after, cat, r);
  }

  /** A help-desk delegation first, then an owner delegation, both for the requester and the whole application. */
  function HelpThenOwner(requester: UserId, row: User, target: UserId, other: User, application: nat): seq<Request> {
    [PutUser(requester, row, 0)] + [PutUser(target, other, 0)]
    + [AssignDelegate(requester, requester, ApplicationScope, application, HelpdeskDelegate, None, 0, true)]
    + [AssignDelegate(requester, requester, ApplicationScope, application, ApplicationOwner, None, 0, true)]
  }

  lemma HelpThenOwnerGives(cat: Catalog, requester: UserId, row: User, target: UserId, other: User, application: nat)
    requires requester != target && row.active && application in cat.applications
    requires HasAuditReference(cat, ApplicationScope, application)
    ensures Run(EMPTY, cat, HelpThenOwner(requester, row, target, other, application)) ==
            State(map[requester := row, target := other], [],
                  [Delegation(requester, ApplicationScope, application, HelpdeskDelegate, 0, None, true),
                   Delegation(requester, ApplicationScope, application, ApplicationOwner, 0, None, true)],
                  [DelegationAssigned(requester, requester), DelegationAssigned(requester, requester)])
  {
    hide Run, HasAuditReference;
    var help := AssignDelegate(requester, requester, ApplicationScope, application, HelpdeskDelegate, None, 0, true);
    var owner := AssignDelegate(requester, requester, ApplicationScope, application, ApplicationOwner, None, 0, true);
    var users := [PutUser(requester, row, 0)] + [PutUser(target, other, 0)];
    RunNothing(cat);
    RunAppend(EMPTY, cat, [], PutUser(requester, row, 0));
    assert [] + [PutUser(requester, row, 0)] == [PutUser(requester, row, 0)];
    RunAppend(EMPTY, cat, [PutUser(requester, row, 0)], PutUser(target, other, 0));
    RunAppend(EMPTY, cat, users, help);
    assert Run(EMPTY, cat, users).users == map[requester := row, target := other];
    var h := Delegation(requester, ApplicationScope, application, HelpdeskDelegate, 0, None, true);
    assert Run(EMPTY, cat, users + [help]).delegations == [h];
    RunAppend(EMPTY, cat, users + [help], owner);
  }

  /** From empty tables, for every administrator entitlement outside the finance portal: the owner's
      grant is refused until the older help-desk delegation is removed. */
  lemma ShadowingIsReached(cat: Catalog, id: EntitlementId, requester: UserId, row: User, target: UserId, other: User)
    requires id in cat.entitlements && IsAdministratorEntitlement(cat.entitlements[id]) && !IsFinancePortal(cat.entitlements[id])
    requires cat.entitlements[id].application in cat.applications
    requires requester != target && row.active && other.active && !IsAdmin(row)
    ensures var requests := HelpThenOwner(requester, row, target, other, cat.entitlements[id].application);
            var s := Run(EMPTY, cat, requests);
            var grant := GrantAccess(requester, target, id, 0, true);
            && GrantStep(s, cat, grant).1 == PolicyDenied(DelegationLacksAdministrator)
            && GrantStep(RemoveStep(s, cat, RemoveDelegate(requester, 0, 0, true)).0, cat, grant).1 == Done
  {
    hide Run, IsAdmin, IsAdministratorEntitlement, IsFinancePortal, GrantStep, RemoveStep, HelpThenOwner;
    var application := cat.entitlements[id].application;
    HelpThenOwnerGives(cat, requester, row, target, other, application);
    var s := Run(EMPTY, cat, HelpThenOwner(requester, row, target, other, application));
    OlderDelegationShadows(s, cat, GrantAccess(requester, target, id, 0, true), s.delegations[0], s.delegations[1]);
  }
}
