/** The access endpoints as they update the tables between their branches. */
module AccessService {
  import opened Prelude
  import opened AccessPolicy
  import opened AccessControl

  class Service {
    const cat: Catalog
    var users: map<UserId, User>
    var assignments: seq<Assignment>
    var delegations: seq<Delegation>
    var audit: seq<AuditEvent>
    ghost var clock: int      // the time of the last request

    function State(): State
      reads this
    {
      AccessControl.State.State(users, assignments, delegations, audit)
    }

    /** What every request finds and leaves: live assignments without duplicates and equal to the
        replayed audit log, delegation rows that obey the table's constraint, and no two delegations of
        one key that were ever effective together. */
    ghost predicate Valid()
      reads this
    {
      LogAgrees(State()) && DelegationsFit(delegations, clock)
    }

    constructor (cat: Catalog, ghost start: int)
      ensures Valid() && this.cat == cat && State() == EMPTY && clock == start
    {
      this.cat := cat;
      users, assignments, delegations, audit := map[], [], [], [];
      clock := start;
      new;
      EmptyIsValid(start);
    }

    /** Another endpoint stores a user row. */
    method PutUser(id: UserId, user: User, now: int)
      requires Valid() && clock <= now
      modifies this
      ensures Valid() && clock == now
      ensures State() == Step(old(State()), cat, Request.PutUser(id, user, now)).0
    {
      hide LogAgrees, DelegationsFit;
      StepKeepsValid(State(), cat, Request.PutUser(id, user, now), clock);
      users := users[id := user];
      clock := now;
    }

    /** Scans the delegate's effective delegations in id order for one that changes access and
        covers the entitlement. */
    method HasPermission(actor: UserId, id: EntitlementId, now: int) returns (d: Option<Delegation>)
      requires id in cat.entitlements
      ensures d == FirstPermitting(delegations, actor, now, id, cat.entitlements[id])
    {
      var entitlement := cat.entitlements[id];
      for i := 0 to |delegations|
        invariant FirstPermitting(delegations, actor, now, id, entitlement) == FirstPermitting(delegations[i..], actor, now, id, entitlement)
      {
        var row := delegations[i];
        if row.delegate == actor && Effective(row, now) {
          if ChangesAccess(row.role) && Covers(row, id, entitlement) {
            return Some(row);
          }
        }
      }
      d := None;
    }

    /** The gate; it writes its own audit row unless the actor is a global administrator. */
    method AuthorizeAccessAction(actor: UserId, target: UserId, id: EntitlementId, now: int) returns (a: Authorization)
      requires actor in users && id in cat.entitlements
      modifies this`audit
      ensures a == Authorize(old(State()), cat, actor, id, now)
      ensures audit == old(audit) + GateEvents(a, actor, target, id)
    {
      if IsAdmin(users[actor]) {
        a := Global;
        assert audit + [] == audit;
        return;
      }
      var d := HasPermission(actor, id, now);
      if d.None? {
        audit := audit + [AccessEvent(actor, target, DelegatedActionDenied, id, Denied)];
        return Unauthorized;
      }
      audit := audit + [AccessEvent(actor, target, DelegatedActionAllowed, id, Allowed)];
      a := Delegated(d.value);
    }

    /** Commits, or restores the rows the session started from. */
    method Finish(commits: bool, before: State, outcome: Outcome) returns (r: Outcome)
      modifies this`users, this`assignments, this`delegations, this`audit
      ensures (State(), r) == Committed(before, commits, old(State()), outcome)
    {
      if commits {
        return outcome;
      }
      users, assignments, delegations, audit := before.users, before.assignments, before.delegations, before.audit;
      r := DatabaseError;
    }

    method GrantAccess(requester: UserId, target: UserId, id: EntitlementId, now: int, commits: bool) returns (outcome: Outcome)
      requires Valid() && clock <= now
      modifies this
      ensures Valid() && clock == now
      ensures (State(), outcome) == GrantStep(old(State()), cat, Request.GrantAccess(requester, target, id, now, commits))
      ensures outcome == Done <==>
        LegitimateGrant(old(State()), cat, requester, target, id, now) && Assignment(target, id) !in old(assignments) && commits
      ensures assignments == if outcome == Done then old(assignments) + [Assignment(target, id)] else old(assignments)
    {
      hide LegitimateGrant, LogAgrees, DelegationsFit, FirstPermitting, GrantPolicy, OperatorRoleOf, GateEvents, Authorize;
      StepKeepsValid(State(), cat, Request.GrantAccess(requester, target, id, now, commits), clock);
      GrantSucceedsIff(State(), cat, Request.GrantAccess(requester, target, id, now, commits));
      clock := now;
      var before := State();
      if requester !in users {
        return Unauthenticated;
      }
      if target !in users || id !in cat.entitlements {
        return NotFound;
      }
      var auth := AuthorizeAccessAction(requester, target, id, now);
      if auth.Unauthorized? {
        outcome := Finish(commits, before, Forbidden);
        return;
      }
      var a := Assignment(target, id);
      if a in assignments {
        audit := audit + [AccessEvent(requester, target, Grant, id, Denied)];
        outcome := Finish(commits, before, Conflict);
        return;
      }
      var reason := GrantPolicy(users[requester], users[target], cat.entitlements[id], RoleOf(auth));
      if !Allows(reason) {
        audit := audit + [AccessEvent(requester, target, Grant, id, Denied)];
        outcome := Finish(commits, before, PolicyDenied(reason));
        return;
      }
      assignments := assignments + [a];
      audit := audit + [AccessEvent(requester, target, Grant, id, Succeeded)];
      outcome := Finish(commits, before, Done);
    }

    method RevokeAccess(requester: UserId, target: UserId, id: EntitlementId, now: int, commits: bool) returns (outcome: Outcome)
      requires Valid() && clock <= now
      modifies this
      ensures Valid() && clock == now
      ensures (State(), outcome) == RevokeStep(old(State()), cat, Request.RevokeAccess(requester, target, id, now, commits))
      ensures forall a :: a in assignments <==> a in old(assignments) && !(outcome == Done && a == Assignment(target, id))
    {
      hide LogAgrees, DelegationsFit, FirstPermitting, RevokePolicy, OperatorRoleOf, GateEvents, Authorize, Without;
      StepKeepsValid(State(), cat, Request.RevokeAccess(requester, target, id, now, commits), clock);
      clock := now;
      var before := State();
      if requester !in users {
        return Unauthenticated;
      }
      if target !in users || id !in cat.entitlements {
        return NotFound;
      }
      var auth := AuthorizeAccessAction(requester, target, id, now);
      if auth.Unauthorized? {
        outcome := Finish(commits, before, Forbidden);
        return;
      }
      var a := Assignment(target, id);
      if a !in assignments {
        audit := audit + [AccessEvent(requester, target, Revoke, id, Denied)];
        outcome := Finish(commits, before, NotFound);
        return;
      }
      var reason := RevokePolicy(users[requester], cat.entitlements[id], RoleOf(auth));
      if !Allows(reason) {
        audit := audit + [AccessEvent(requester, target, Revoke, id, Denied)];
        outcome := Finish(commits, before, PolicyDenied(reason));
        return;
      }
      RemovedExactly(before, a);
      assignments := Without(assignments, a);
      audit := audit + [AccessEvent(requester, target, Revoke, id, Succeeded)];
      outcome := Finish(commits, before, Done);
    }

    method AssignDelegate(actor: UserId, delegate: UserId, scope: Scope, scopeId: nat, role: DelegationRole,
                          expiresAt: Option<int>, now: int, commits: bool) returns (outcome: Outcome)
      requires Valid() && clock <= now
      modifies this
      ensures Valid() && clock == now
      ensures (State(), outcome) ==
        AssignStep(old(State()), cat, Request.AssignDelegate(actor, delegate, scope, scopeId, role, expiresAt, now, commits))
      ensures outcome == Done ==>
        && !HasRow(old(delegations), Delegation(delegate, scope, scopeId, role, now, expiresAt, true), true)
        && delegations == old(delegations) + [Delegation(delegate, scope, scopeId, role, now, expiresAt, true)]
    {
      hide LogAgrees, DelegationsFit;
      StepKeepsValid(State(), cat, Request.AssignDelegate(actor, delegate, scope, scopeId, role, expiresAt, now, commits), clock);
      clock := now;
      var before := State();
      if delegate !in users {
        return NotFound;
      }
      if !users[delegate].active {
        return InactiveDelegate;
      }
      if expiresAt.Some? && expiresAt.value <= now {
        return AlreadyExpired;
      }
      if !RoleFitsScope(scope, role) {
        return InvalidScope;
      }
      if !ScopeExists(cat, scope, scopeId) {
        return ScopeNotFound;
      }
      var d := Delegation(delegate, scope, scopeId, role, now, expiresAt, true);
      if HasEffectiveTwin(delegations, d, now) {
        return DuplicateDelegation;
      }
      delegations := delegations + [d];
      if !UniqueRows(delegations) {
        delegations := before.delegations;      // refused at the flush
        return DatabaseError;
      }
      NoActiveRow(before.delegations, d);
      if !HasAuditReference(cat, scope, scopeId) {
        delegations := before.delegations;
        return ScopeNotFound;
      }
      audit := audit + [DelegationAssigned(actor, delegate)];
      outcome := Finish(commits, before, Done);
    }

    method RemoveDelegate(actor: UserId, index: nat, now: int, commits: bool) returns (outcome: Outcome)
      requires Valid() && clock <= now
      modifies this
      ensures Valid() && clock == now
      ensures (State(), outcome) == RemoveStep(old(State()), cat, Request.RemoveDelegate(actor, index, now, commits))
    {
      hide LogAgrees, DelegationsFit;
      StepKeepsValid(State(), cat, Request.RemoveDelegate(actor, index, now, commits), clock);
      clock := now;
      var before := State();
      if index >= |delegations| {
        return NotFound;
      }
      var d := delegations[index];
      if !d.active {
        return InactiveDelegation;
      }
      delegations := delegations[index := d.(active := false)];
      if !UniqueRows(delegations) {
        delegations := before.delegations;      // refused at the flush
        return DatabaseError;
      }
      if !HasAuditReference(cat, d.scope, d.scopeId) {
        delegations := before.delegations;
        return ScopeNotFound;
      }
      audit := audit + [DelegationRemoved(actor, d.delegate)];
      outcome := Finish(commits, before, Done);
    }
  }

  ghost predicate DelegationsFit(ds: seq<Delegation>, now: int) {
    UniqueRows(ds) && NeverOverlap(ds) && CreatedBy(ds, now)
  }

  lemma EmptyIsValid(start: int)
    ensures LogAgrees(EMPTY) && DelegationsFit(EMPTY.delegations, start)
  {
    RunAgrees(Catalog(map[], {}, {}, false), []);
  }

  lemma StepKeepsValid(s: State, cat: Catalog, r: Request, before: int)
    requires LogAgrees(s) && DelegationsFit(s.delegations, before) && before <= r.now
    ensures LogAgrees(Step(s, cat, r).0) && DelegationsFit(Step(s, cat, r).0.delegations, r.now)
  {
    hide LogAgrees, UniqueRows, NeverOverlap, CreatedBy, Step;
    StepAgrees(s, cat, r);
    StepKeepsRowsUnique(s, cat, r);
    StepNeverOverlaps(s, cat, r, before);
  }

  lemma RemovedExactly(s: State, a: Assignment)
    requires LogAgrees(s) && a in s.assignments
    ensures forall x :: x in Without(s.assignments, a) <==> x in s.assignments && x != a
  {
    RowRemoved(s.assignments, a);
    assert forall x :: x in Without(s.assignments, a) <==> x in (set y | y in Without(s.assignments, a));
    assert forall x :: x in s.assignments <==> x in (set y | y in s.assignments);
  }

  lemma NoActiveRow(ds: seq<Delegation>, d: Delegation)
    requires UniqueRows(ds + [d]) && d.active
    ensures !HasRow(ds, d, true)
  {
    var more := ds + [d];
    forall i | 0 <= i < |ds| ensures !(SameKey(ds[i], d) && ds[i].active) {
      assert more[i] == ds[i] && more[|ds|] == d;
    }
  }
}
