/** The manager relation as a finite map: each user has at most one manager. */
module ManagerHierarchy {
  import opened Prelude

  type UserId = nat
  type Managers = map<UserId, UserId>

  /** The manager `n` levels above `u`, if the chain is that long. */
  function Up(m: Managers, u: UserId, n: nat): Option<UserId>
    decreases n
  {
    if n == 0 then Some(u)
    else if u in m then Up(m, m[u], n - 1)
    else None
  }

  /** `v` is a manager of `u`, direct or indirect. */
  ghost predicate Manages(m: Managers, v: UserId, u: UserId) {
    exists n: nat :: n > 0 && Up(m, u, n) == Some(v)
  }

  ghost predicate Acyclic(m: Managers) {
    forall u: UserId, n: nat :: n > 0 ==> Up(m, u, n) != Some(u)
  }

  lemma {:induction false} UpAdd(m: Managers, u: UserId, a: nat, b: nat)
    requires Up(m, u, a).Some?
    ensures Up(m, u, a + b) == Up(m, Up(m, u, a).value, b)
    decreases a
  {
    if a == 0 {
    } else {
      UpAdd(m, m[u], a - 1, b);
    }
  }

  /** A chain that starts in a set closed under the relation never leaves it. */
  lemma {:induction false} ClosedSetHolds(m: Managers, s: set<UserId>, u: UserId, n: nat)
    requires u in s && forall x :: x in s && x in m ==> m[x] in s
    ensures Up(m, u, n).Some? ==> Up(m, u, n).value in s
    decreases n
  {
    if n == 0 || u !in m {
    } else {
      ClosedSetHolds(m, s, m[u], n - 1);
    }
  }

  /** The two relations differ at most in the manager of `user`. */
  ghost predicate AgreeExceptAt(m: Managers, m': Managers, user: UserId) {
    forall x: UserId :: x != user ==> Lookup(m, x) == Lookup(m', x)
  }

  /** A chain reaching `user` under one relation reaches it under the other, for the first time
      at some level `k` up to which both agree. */
  lemma {:induction false} FirstArrival(m: Managers, m': Managers, user: UserId, x: UserId, n: nat) returns (k: nat)
    requires AgreeExceptAt(m, m', user) && Up(m', x, n) == Some(user)
    ensures k <= n && Up(m, x, k) == Up(m', x, k) == Some(user)
    decreases n
  {
    if x == user {
      k := 0;
    } else {
      assert Lookup(m, x) == Lookup(m', x);
      k := FirstArrival(m, m', user, m[x], n - 1);
      k := k + 1;
    }
  }

  /** A chain that avoids `user` is the same under both relations. */
  lemma {:induction false} SameChain(m: Managers, m': Managers, user: UserId, x: UserId, n: nat)
    requires AgreeExceptAt(m, m', user)
    requires forall i: nat :: i < n ==> Up(m', x, i) != Some(user)
    ensures Up(m, x, n) == Up(m', x, n)
    decreases n
  {
    if n == 0 {
    } else {
      assert Up(m', x, 0) == Some(x);
      assert Lookup(m, x) == Lookup(m', x);
      if x in m' {
        forall i: nat | i < n - 1
          ensures Up(m', m'[x], i) != Some(user)
        {
          assert Up(m', x, i + 1) == Up(m', m'[x], i);
        }
        SameChain(m, m', user, m'[x], n - 1);
      }
    }
  }

  /** A cycle created by changing one user's manager goes through that user. */
  lemma NewCycleContainsUser(m: Managers, m': Managers, user: UserId)
    requires Acyclic(m) && AgreeExceptAt(m, m', user)
    requires forall n: nat :: n > 0 ==> Up(m', user, n) != Some(user)
    ensures Acyclic(m')
  {
    forall u: UserId, n: nat | n > 0
      ensures Up(m', u, n) != Some(u)
    {
      if Up(m', u, n) == Some(u) {
        if i: nat :| i < n && Up(m', u, i) == Some(user) {
          UpAdd(m', u, n, i);
          UpAdd(m', u, i, n);
        } else {
          SameChain(m, m', user, u, n);
        }
      }
    }
  }

  /** Assigning a manager keeps the hierarchy acyclic exactly when the manager is neither the
      user nor someone the user manages. */
  lemma AssignKeepsAcyclic(m: Managers, user: UserId, manager: UserId)
    requires Acyclic(m)
    ensures Acyclic(m[user := manager]) <==> manager != user && !Manages(m, user, manager)
  {
    var m' := m[user := manager];
    if Manages(m, user, manager) {
      var n: nat :| n > 0 && Up(m, manager, n) == Some(user);
      var k := FirstArrival(m', m, user, manager, n);
      assert Up(m', user, k + 1) == Some(user);
    } else if manager == user {
      assert Up(m', user, 1) == Up(m', user, 0);
    } else {
      assert Up(m, manager, 0) != Some(user);
      forall n: nat | n > 0
        ensures Up(m', user, n) != Some(user)
      {
        if Up(m', user, n) == Some(user) {
          var k := FirstArrival(m, m', user, manager, n - 1);
        }
      }
      NewCycleContainsUser(m, m', user);
    }
  }

  /** Dropping a manager keeps the hierarchy acyclic. */
  lemma ClearKeepsAcyclic(m: Managers, user: UserId)
    requires Acyclic(m)
    ensures Acyclic(m - {user})
  {
    NewCycleContainsUser(m, m - {user}, user);
  }
}
