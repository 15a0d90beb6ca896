/** Operator roles, delegations and the grant and revoke policies. */
module AccessPolicy {
  import opened Prelude
  import opened Text

  type UserId = nat
  type EntitlementId = nat

  datatype User = User(role: string, department: string, active: bool)

  datatype Entitlement = Entitlement(application: nat, slug: string, applicationSlug: string)

  // ----- Operator roles

  datatype OperatorRole = SecurityAdmin | IamAdmin | Auditor | Helpdesk | ManagerRole | Employee | OtherRole

  function DashToUnderscore(s: string): string {
    seq(|s|, i requires 0 <= i < |s| => if s[i] == '-' then '_' else s[i])
  }

  /** Role spelling is stripped, lower-cased and freed of dashes; two legacy names are aliases. */
  function OperatorRoleOf(raw: string): OperatorRole {
    var role := DashToUnderscore(Lower(Strip(raw)));
    if role == "security_admin" || role == "administrator" then SecurityAdmin
    else if role == "iam_admin" then IamAdmin
    else if role == "auditor" then Auditor
    else if role == "helpdesk" || role == "help_desk" then Helpdesk
    else if role == "manager" then ManagerRole
    else if role == "employee" then Employee
    else OtherRole
  }

  predicate IsAdmin(u: User) {
    OperatorRoleOf(u.role).SecurityAdmin? || OperatorRoleOf(u.role).IamAdmin?
  }

  // ----- Delegations; their position in the table is their id order

  datatype DelegationRole =
    | ApplicationOwner | ApplicationAdministrator | GroupOwner | GroupAdministrator | AccessReviewer | HelpdeskDelegate

  datatype Scope = ApplicationScope | GroupScope | EntitlementScope

  datatype Delegation = Delegation(delegate: UserId, scope: Scope, scopeId: nat, role: DelegationRole,
                                   createdAt: int, expiresAt: Option<int>, active: bool)

  predicate RoleFitsScope(scope: Scope, role: DelegationRole) {
    match scope
    case ApplicationScope => role in {ApplicationOwner, ApplicationAdministrator, AccessReviewer, HelpdeskDelegate}
    case EntitlementScope => role in {ApplicationOwner, ApplicationAdministrator, HelpdeskDelegate}
    case GroupScope => role in {GroupOwner, GroupAdministrator}
  }

  predicate ChangesAccess(role: DelegationRole) {
    role.ApplicationOwner? || role.ApplicationAdministrator? || role.HelpdeskDelegate?
  }

  predicate Administers(role: DelegationRole) {
    role.ApplicationOwner? || role.ApplicationAdministrator?
  }

  predicate Effective(d: Delegation, now: int) {
    d.active && (d.expiresAt.Some? ==> d.expiresAt.value > now)
  }

  predicate Covers(d: Delegation, id: EntitlementId, e: Entitlement) {
    match d.scope
    case ApplicationScope => d.scopeId == e.application
    case EntitlementScope => d.scopeId == id
    case GroupScope => false
  }

  predicate Permits(d: Delegation, actor: UserId, now: int, id: EntitlementId, e: Entitlement) {
    d.delegate == actor && Effective(d, now) && ChangesAccess(d.role) && Covers(d, id, e)
  }

  /** The permitting delegation with the lowest id decides. */
  function FirstPermitting(ds: seq<Delegation>, actor: UserId, now: int, id: EntitlementId, e: Entitlement): (r: Option<Delegation>)
    ensures r.Some? ==> Permits(r.value, actor, now, id, e)
    ensures r.Some? ==> exists i :: 0 <= i < |ds| && ds[i] == r.value && forall j :: 0 <= j < i ==> !Permits(ds[j], actor, now, id, e)
    ensures r.None? ==> forall d :: d in ds ==> !Permits(d, actor, now, id, e)
  {
    if ds == [] then None
    else if Permits(ds[0], actor, now, id, e) then Some(ds[0])
    else
      var rest := FirstPermitting(ds[1..], actor, now, id, e);
      assert rest.Some? ==> exists i :: 0 < i < |ds| && ds[i] == rest.value && forall j :: 0 <= j < i ==> !Permits(ds[j], actor, now, id, e) by {
        if rest.Some? {
          var i :| 0 <= i < |ds| - 1 && ds[1..][i] == rest.value && forall j :: 0 <= j < i ==> !Permits(ds[1..][j], actor, now, id, e);
          assert ds[i + 1] == rest.value;
          forall j | 0 <= j < i + 1 ensures !Permits(ds[j], actor, now, id, e) {
            assert j > 0 ==> ds[j] == ds[1..][j - 1];
          }
        }
      }
      rest
  }

  lemma {:induction false} LaterDelegationsDoNotDecide(ds: seq<Delegation>, extra: seq<Delegation>,
                                                       actor: UserId, now: int, id: EntitlementId, e: Entitlement)
    ensures FirstPermitting(ds + extra, actor, now, id, e) ==
            if FirstPermitting(ds, actor, now, id, e).Some? then FirstPermitting(ds, actor, now, id, e)
            else FirstPermitting(extra, actor, now, id, e)
    decreases |ds|
  {
    if ds == [] {
      assert ds + extra == extra;
    } else {
      assert (ds + extra)[1..] == ds[1..] + extra;
      LaterDelegationsDoNotDecide(ds[1..], extra, actor, now, id, e);
    }
  }

  // ----- Policies, in priority order

  datatype Reason =
    | TargetInactive | RequesterInactive | AuditorsCannot | EmployeesCannot | FinanceOnly
    | DelegationLacksAdministrator | RequesterLacksAdministrator | RoleNotAllowed
    | DelegatedApproval | RoleApproval

  predicate Allows(r: Reason) {
    r.DelegatedApproval? || r.RoleApproval?
  }

  predicate IsAdministratorEntitlement(e: Entitlement) {
    Lower(e.slug) == "administrator"
  }

  predicate IsFinancePortal(e: Entitlement) {
    Lower(e.applicationSlug) == "finance-portal"
  }

  predicate InFinance(u: User) {
    Lower(u.department) == "finance"
  }

  function GrantPolicy(requester: User, target: User, e: Entitlement, delegation: Option<DelegationRole>): Reason {
    var role := OperatorRoleOf(requester.role);
    if !target.active then TargetInactive
    else if !requester.active then RequesterInactive
    else if delegation.None? && role.Auditor? then AuditorsCannot
    else if delegation.None? && role.Employee? then EmployeesCannot
    else if IsFinancePortal(e) && !InFinance(target) then FinanceOnly
    else if IsAdministratorEntitlement(e) && delegation.Some? && !Administers(delegation.value) then DelegationLacksAdministrator
    else if IsAdministratorEntitlement(e) && delegation.None? && !IsAdmin(requester) then RequesterLacksAdministrator
    else if delegation.Some? && ChangesAccess(delegation.value) then DelegatedApproval
    else if IsAdmin(requester) || role.Helpdesk? then RoleApproval
    else RoleNotAllowed
  }

  function RevokePolicy(requester: User, e: Entitlement, delegation: Option<DelegationRole>): Reason {
    var role := OperatorRoleOf(requester.role);
    if !requester.active then RequesterInactive
    else if delegation.None? && role.Auditor? then AuditorsCannot
    else if delegation.None? && role.Employee? then EmployeesCannot
    else if IsAdministratorEntitlement(e) && delegation.Some? && !Administers(delegation.value) then DelegationLacksAdministrator
    else if IsAdministratorEntitlement(e) && delegation.None? && !IsAdmin(requester) then RequesterLacksAdministrator
    else if delegation.Some? && ChangesAccess(delegation.value) then DelegatedApproval
    else if IsAdmin(requester) || role.Helpdesk? then RoleApproval
    else RoleNotAllowed
  }
}
