/** The access rules over the fields of users, entitlements and delegation rows. */
module AccessMeaning {
  import opened Prelude
  import opened Text
  import opened AccessPolicy
  import opened AccessControl

  // ----- Roles

  /** Stripped, in small letters, with underscores for dashes. */
  predicate Normalizes(raw: string, role: string) {
    |role| == |Strip(raw)| &&
    forall i :: 0 <= i < |role| ==> role[i] == if Lower(Strip(raw))[i] == '-' then '_' else Lower(Strip(raw))[i]
  }

  lemma OnlyNormalForm(raw: string, role: string)
    ensures Normalizes(raw, role) <==> DashToUnderscore(Lower(Strip(raw))) == role
  {
    hide Strip, Lower;
  }

  lemma SpellingsDiffer()
    ensures |"security_admin"| == 14 && |"administrator"| == 13 && |"iam_admin"| == 9 && |"auditor"| == 7
    ensures |"helpdesk"| == 8 && |"help_desk"| == 9 && |"manager"| == 7 && |"employee"| == 8
    ensures "iam_admin"[0] == 'i' && "help_desk"[0] == 'h' && "auditor"[0] == 'a' && "manager"[0] == 'm'
    ensures "helpdesk"[0] == 'h' && "employee"[0] == 'e'
  {
  }

  /** The spellings of each role, the two legacy names included. */
  lemma RoleMeaning(raw: string)
    ensures OperatorRoleOf(raw) == SecurityAdmin <==> Normalizes(raw, "security_admin") || Normalizes(raw, "administrator")
    ensures OperatorRoleOf(raw) == IamAdmin <==> Normalizes(raw, "iam_admin")
    ensures OperatorRoleOf(raw) == Auditor <==> Normalizes(raw, "auditor")
    ensures OperatorRoleOf(raw) == Helpdesk <==> Normalizes(raw, "helpdesk") || Normalizes(raw, "help_desk")
    ensures OperatorRoleOf(raw) == Employee <==> Normalizes(raw, "employee")
  {
    hide Strip, Lower, Normalizes, DashToUnderscore;
    SpellingsDiffer();
    OnlyNormalForm(raw, "security_admin");
    OnlyNormalForm(raw, "administrator");
    OnlyNormalForm(raw, "iam_admin");
    OnlyNormalForm(raw, "auditor");
    OnlyNormalForm(raw, "helpdesk");
    OnlyNormalForm(raw, "help_desk");
    OnlyNormalForm(raw, "employee");
  }

  predicate Administrator(u: User) {
    Normalizes(u.role, "security_admin") || Normalizes(u.role, "administrator") || Normalizes(u.role, "iam_admin")
  }

  lemma AdminMeaning(u: User)
    ensures IsAdmin(u) <==> Administrator(u)
  {
    hide OperatorRoleOf, Normalizes;
    RoleMeaning(u.role);
  }

  // ----- Delegations

  /** The row is active and not expired, lets its delegate change access, and names the entitlement or
      its application. */
  predicate Reaches(d: Delegation, actor: UserId, now: int, id: EntitlementId, e: Entitlement) {
    && d.delegate == actor && d.active
    && (d.expiresAt == None || d.expiresAt.value > now)
    && (d.role == ApplicationOwner || d.role == ApplicationAdministrator || d.role == HelpdeskDelegate)
    && ((d.scope == ApplicationScope && d.scopeId == e.application) || (d.scope == EntitlementScope && d.scopeId == id))
  }

  lemma PermitsMeaning(d: Delegation, actor: UserId, now: int, id: EntitlementId, e: Entitlement)
    ensures Permits(d, actor, now, id, e) <==> Reaches(d, actor, now, id, e)
  {
  }

  /** Row `i` is the first that reaches. */
  predicate FirstAt(ds: seq<Delegation>, i: int, actor: UserId, now: int, id: EntitlementId, e: Entitlement) {
    0 <= i < |ds| && Reaches(ds[i], actor, now, id, e) && forall j :: 0 <= j < i ==> !Reaches(ds[j], actor, now, id, e)
  }

  lemma FirstMeaning(ds: seq<Delegation>, actor: UserId, now: int, id: EntitlementId, e: Entitlement)
    ensures var d := FirstPermitting(ds, actor, now, id, e);
            && (d == None <==> forall i :: 0 <= i < |ds| ==> !Reaches(ds[i], actor, now, id, e))
            && (forall i :: FirstAt(ds, i, actor, now, id, e) ==> d == Some(ds[i]))
            && (d.Some? ==> exists i :: FirstAt(ds, i, actor, now, id, e))
  {
    hide Permits, Reaches;
    forall d { PermitsMeaning(d, actor, now, id, e); }
    var d := FirstPermitting(ds, actor, now, id, e);
    if d.Some? {
      var i :| 0 <= i < |ds| && ds[i] == d.value && forall j :: 0 <= j < i ==> !Permits(ds[j], actor, now, id, e);
      assert FirstAt(ds, i, actor, now, id, e);
      forall k | FirstAt(ds, k, actor, now, id, e) ensures k == i {
        assert k < i || i < k || i == k;
      }
    } else {
      forall i | 0 <= i < |ds| ensures !Reaches(ds[i], actor, now, id, e) {
        assert ds[i] in ds;
      }
    }
  }

  /** A global administrator, or the delegate of the first row that reaches, which on an administrator
      entitlement must be an owner's or administrator's. */
  ghost predicate HasAuthority(s: State, requester: UserId, id: EntitlementId, e: Entitlement, now: int)
    requires requester in s.users
  {
    || Administrator(s.users[requester])
    || exists i :: FirstAt(s.delegations, i, requester, now, id, e)
         && (Lower(e.slug) == "administrator" ==> s.delegations[i].role == ApplicationOwner || s.delegations[i].role == ApplicationAdministrator)
  }

  lemma AuthorityMeaning(s: State, cat: Catalog, requester: UserId, id: EntitlementId, now: int)
    requires requester in s.users && id in cat.entitlements
    ensures MayChange(s, cat, requester, id, now) <==> HasAuthority(s, requester, id, cat.entitlements[id], now)
  {
    hide IsAdmin, Administrator, FirstPermitting, FirstAt, Lower;
    AdminMeaning(s.users[requester]);
    FirstMeaning(s.delegations, requester, now, id, cat.entitlements[id]);
    FirstInRange(s.delegations, requester, now, id, cat.entitlements[id]);
  }

  lemma FirstInRange(ds: seq<Delegation>, actor: UserId, now: int, id: EntitlementId, e: Entitlement)
    ensures forall i :: FirstAt(ds, i, actor, now, id, e) ==> 0 <= i < |ds|
  {
  }

  // ----- Granting and revoking

  lemma GrantWrittenOut(s: State, cat: Catalog, r: Request)
    requires r.GrantAccess?
    ensures GrantStep(s, cat, r).1 == Done <==>
      && r.requester in s.users && r.target in s.users && r.entitlement in cat.entitlements
      && s.users[r.requester].active && s.users[r.target].active
      && (Lower(cat.entitlements[r.entitlement].applicationSlug) == "finance-portal" ==> Lower(s.users[r.target].department) == "finance")
      && HasAuthority(s, r.requester, r.entitlement, cat.entitlements[r.entitlement], r.now)
      && Assignment(r.target, r.entitlement) !in s.assignments
      && r.commits
    ensures GrantStep(s, cat, r).0.assignments ==
      if GrantStep(s, cat, r).1 == Done then s.assignments + [Assignment(r.target, r.entitlement)] else s.assignments
  {
    hide GrantPolicy, MayChange, HasAuthority, Lower, Authorize, GateEvents;
    GrantSucceedsIff(s, cat, r);
    if r.requester in s.users && r.entitlement in cat.entitlements {
      AuthorityMeaning(s, cat, r.requester, r.entitlement, r.now);
    }
  }

  lemma RevokeWrittenOut(s: State, cat: Catalog, r: Request)
    requires r.RevokeAccess?
    ensures RevokeStep(s, cat, r).1 == Done <==>
      && r.requester in s.users && r.target in s.users && r.entitlement in cat.entitlements
      && s.users[r.requester].active
      && HasAuthority(s, r.requester, r.entitlement, cat.entitlements[r.entitlement], r.now)
      && Assignment(r.target, r.entitlement) in s.assignments
      && r.commits
    ensures RevokeStep(s, cat, r).1 != Done ==> RevokeStep(s, cat, r).0.assignments == s.assignments
  {
    hide RevokePolicy, MayChange, HasAuthority, Lower, Authorize, GateEvents, Without;
    RevokeSucceedsIff(s, cat, r);
    if r.requester in s.users && r.entitlement in cat.entitlements {
      AuthorityMeaning(s, cat, r.requester, r.entitlement, r.now);
    }
  }

  /** A request over existing rows is forbidden exactly when the requester is no global administrator
      and no row reaches. */
  lemma ForbiddenIff(s: State, cat: Catalog, r: Request)
    requires r.GrantAccess? || r.RevokeAccess?
    requires r.requester in s.users && r.target in s.users && r.entitlement in cat.entitlements
    ensures Step(s, cat, r).1 == Forbidden <==>
      && !Administrator(s.users[r.requester]) && r.commits
      && forall i :: 0 <= i < |s.delegations| ==>
           !Reaches(s.delegations[i], r.requester, r.now, r.entitlement, cat.entitlements[r.entitlement])
  {
    hide GrantPolicy, RevokePolicy, IsAdmin, Administrator, FirstPermitting, Reaches, GateEvents, Without;
    AdminMeaning(s.users[r.requester]);
    FirstMeaning(s.delegations, r.requester, r.now, r.entitlement, cat.entitlements[r.entitlement]);
  }

  /** Delegations that are inactive, or have expired by now, give nothing. */
  lemma ExpiredGivesNothing(s: State, cat: Catalog, r: Request)
    requires r.GrantAccess? || r.RevokeAccess?
    requires r.requester in s.users && r.target in s.users && r.entitlement in cat.entitlements
    requires !Administrator(s.users[r.requester])
    requires forall i :: 0 <= i < |s.delegations| && s.delegations[i].delegate == r.requester ==>
      !s.delegations[i].active || (s.delegations[i].expiresAt.Some? && s.delegations[i].expiresAt.value <= r.now)
    ensures Step(s, cat, r).1 == if r.commits then Forbidden else DatabaseError
    ensures Step(s, cat, r).0.assignments == s.assignments
  {
    hide GrantPolicy, RevokePolicy, IsAdmin, Administrator, FirstPermitting, GateEvents, Without;
    AdminMeaning(s.users[r.requester]);
    FirstMeaning(s.delegations, r.requester, r.now, r.entitlement, cat.entitlements[r.entitlement]);
  }

  /** A sole active delegation decides by its own fields: its expiry, role, scope and scope id. */
  lemma SoleDelegationDecides(s: State, cat: Catalog, r: Request, d: Delegation)
    requires r.GrantAccess? && r.requester in s.users && r.target in s.users && r.entitlement in cat.entitlements && r.commits
    requires !Administrator(s.users[r.requester]) && s.users[r.requester].active && s.users[r.target].active
    requires Lower(cat.entitlements[r.entitlement].applicationSlug) != "finance-portal"
    requires Assignment(r.target, r.entitlement) !in s.assignments
    requires s.delegations == [d] && d.delegate == r.requester && d.active
    ensures var e := cat.entitlements[r.entitlement];
            GrantStep(s, cat, r).1 == Done <==>
              && (d.expiresAt == None || d.expiresAt.value > r.now)
              && (d.role == ApplicationOwner || d.role == ApplicationAdministrator
                  || (d.role == HelpdeskDelegate && Lower(e.slug) != "administrator"))
              && ((d.scope == ApplicationScope && d.scopeId == e.application) || (d.scope == EntitlementScope && d.scopeId == r.entitlement))
  {
    hide Lower, Administrator, GrantStep;
    GrantWrittenOut(s, cat, r);
    var e := cat.entitlements[r.entitlement];
    assert s.delegations[0] == d;
    if Reaches(d, r.requester, r.now, r.entitlement, e) {
      assert FirstAt(s.delegations, 0, r.requester, r.now, r.entitlement, e);
    }
  }

  // ----- The audit rows

  /** What a grant or revoke writes: nothing when a row is missing or the commit is refused; one denial
      by the gate; otherwise the gate's row, unless the requester is a global administrator, and one row
      with the verdict. */
  lemma AuditMeaning(s: State, cat: Catalog, r: Request)
    requires r.GrantAccess? || r.RevokeAccess?
    ensures var (s', outcome) := Step(s, cat, r);
            var verdict := AccessEvent(r.requester, r.target, if r.GrantAccess? then Grant else Revoke, r.entitlement,
                                       if outcome == Done then Succeeded else Denied);
            var gate := AccessEvent(r.requester, r.target, DelegatedActionAllowed, r.entitlement, Allowed);
            if outcome == Unauthenticated || outcome == DatabaseError || r.target !in s.users || r.entitlement !in cat.entitlements
            then s' == s
            else if outcome == Forbidden
            then s' == s.(audit := s.audit + [AccessEvent(r.requester, r.target, DelegatedActionDenied, r.entitlement, Denied)])
            else r.requester in s.users &&
                 s'.audit == s.audit + (if Administrator(s.users[r.requester]) then [] else [gate]) + [verdict]
  {
    hide GrantPolicy, RevokePolicy, IsAdmin, Administrator, FirstPermitting, Without;
    if r.requester in s.users {
      AdminMeaning(s.users[r.requester]);
    }
  }

  // ----- Assigning and uniqueness

  /** After any run, an assignment succeeds exactly when: the delegate exists and is active, the expiry
      is still to come, role and scope fit, the scope exists and an entitlement can be named for the
      audit row, no active row has the same delegate, scope and role, and the commit goes through. */
  lemma AssignWrittenOut(cat: Catalog, requests: seq<Request>, r: Request)
    requires r.AssignDelegate?
    ensures var s := Run(EMPTY, cat, requests);
            AssignStep(s, cat, r).1 == Done <==>
              && r.delegate in s.users && s.users[r.delegate].active
              && (r.expiresAt == None || r.expiresAt.value > r.now)
              && (match r.scope
                  case ApplicationScope =>
                    && (r.role == ApplicationOwner || r.role == ApplicationAdministrator || r.role == AccessReviewer || r.role == HelpdeskDelegate)
                    && r.scopeId in cat.applications && exists e :: e in cat.entitlements && cat.entitlements[e].application == r.scopeId
                  case EntitlementScope =>
                    && (r.role == ApplicationOwner || r.role == ApplicationAdministrator || r.role == HelpdeskDelegate)
                    && r.scopeId in cat.entitlements
                  case GroupScope =>
                    && (r.role == GroupOwner || r.role == GroupAdministrator)
                    && r.scopeId in cat.groups && cat.groupAuditSeeded)
              && (forall i :: 0 <= i < |s.delegations| && s.delegations[i].active ==>
                    !(s.delegations[i].delegate == r.delegate && s.delegations[i].scope == r.scope
                      && s.delegations[i].scopeId == r.scopeId && s.delegations[i].role == r.role))
              && r.commits
  {
    hide Run, AssignStep;
    AssignSucceedsIff(cat, requests, r);
    var s := Run(EMPTY, cat, requests);
    forall i | 0 <= i < |s.delegations| ensures s.delegations[i] in s.delegations {}
  }

  /** From the last request of a run on, no two active and unexpired rows share delegate, scope and role. */
  lemma EffectiveRowsDiffer(cat: Catalog, requests: seq<Request>, start: int, now: int, i: nat, j: nat)
    requires ClockRuns(start, requests) && LastTime(start, requests) <= now
    requires var ds := Run(EMPTY, cat, requests).delegations;
             && i < j < |ds| && ds[i].active && ds[j].active
             && (ds[i].expiresAt == None || ds[i].expiresAt.value > now) && (ds[j].expiresAt == None || ds[j].expiresAt.value > now)
    ensures var ds := Run(EMPTY, cat, requests).delegations;
            !(ds[i].delegate == ds[j].delegate && ds[i].scope == ds[j].scope && ds[i].scopeId == ds[j].scopeId && ds[i].role == ds[j].role)
  {
    hide Run;
    EffectiveDelegationsAreUnique(cat, requests, start, now, i, j);
  }

  /** What an accepted assignment and removal leave, and that refused ones leave nothing. */
  lemma DelegationEffects(s: State, cat: Catalog, r: Request)
    requires r.AssignDelegate? || r.RemoveDelegate?
    ensures var (s', outcome) := Step(s, cat, r);
            && (outcome != Done ==> s' == s)
            && (outcome == Done && r.AssignDelegate? ==>
                  s' == s.(delegations := s.delegations + [Delegation(r.delegate, r.scope, r.scopeId, r.role, r.now, r.expiresAt, true)],
                           audit := s.audit + [DelegationAssigned(r.actor, r.delegate)]))
            && (outcome == Done && r.RemoveDelegate? ==>
                  && r.index < |s.delegations|
                  && s' == s.(delegations := s.delegations[r.index := s.delegations[r.index].(active := false)],
                              audit := s.audit + [DelegationRemoved(r.actor, s.delegations[r.index].delegate)]))
  {
    hide UniqueRows, HasAuditReference, HasEffectiveTwin, ScopeExists, RoleFitsScope;
  }

  /** After any run, a removal succeeds exactly when the row exists and is active, its scope can be named
      in the audit row, no inactive row has its delegate, scope and role, and the commit goes through. */
  lemma RemoveWrittenOut(cat: Catalog, requests: seq<Request>, r: Request)
    requires r.RemoveDelegate?
    ensures var s := Run(EMPTY, cat, requests);
            RemoveStep(s, cat, r).1 == Done <==>
              && r.index < |s.delegations| && s.delegations[r.index].active
              && (match s.delegations[r.index].scope
                  case ApplicationScope => exists e :: e in cat.entitlements && cat.entitlements[e].application == s.delegations[r.index].scopeId
                  case EntitlementScope => s.delegations[r.index].scopeId in cat.entitlements
                  case GroupScope => cat.groupAuditSeeded)
              && (forall i :: 0 <= i < |s.delegations| && !s.delegations[i].active ==>
                    !(s.delegations[i].delegate == s.delegations[r.index].delegate && s.delegations[i].scope == s.delegations[r.index].scope
                      && s.delegations[i].scopeId == s.delegations[r.index].scopeId && s.delegations[i].role == s.delegations[r.index].role))
              && r.commits
  {
    hide Run, RemoveStep;
    RemoveSucceedsIff(cat, requests, r);
    var s := Run(EMPTY, cat, requests);
    forall i | 0 <= i < |s.delegations| ensures s.delegations[i] in s.delegations {}
  }
}
