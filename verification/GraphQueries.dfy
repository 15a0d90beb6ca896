/** Building the graph from the tables, and the manager-chain and access queries over it. */
module GraphQueries {
  import opened Prelude
  import opened Text
  import opened ManagerHierarchy
  import opened EnterpriseProfiles
  import ScimPayloads
  import opened EnterpriseUsers
  import opened AuthorizationGraph

  datatype UserRow = UserRow(id: UserId, name: string)
  datatype ProfileRow = ProfileRow(id: nat, user: UserId, manager: Option<UserId>)
  datatype EntitlementRow = EntitlementRow(id: nat, name: string)
  datatype AssignmentRow = AssignmentRow(user: UserId, entitlement: nat)

  // ----- Node ids

  function UserNode(u: UserId): string { "User:" + Decimal(u) }
  function ProfileNode(p: nat): string { "EnterpriseProfile:" + Decimal(p) }
  function EntitlementNodeFor(sourceId: string): string { "Entitlement:" + sourceId }
  function EntitlementNode(e: nat): string { EntitlementNodeFor(Decimal(e)) }

  lemma NodeIdsDiffer(a: nat, b: nat)
    ensures UserNode(a) == UserNode(b) ==> a == b
    ensures EntitlementNode(a) == EntitlementNode(b) ==> a == b
    ensures UserNode(a) != ProfileNode(b) && UserNode(a) != EntitlementNode(b) && ProfileNode(a) != EntitlementNode(b)
  {
    if UserNode(a) == UserNode(b) {
      assert UserNode(a)[5..] == Decimal(a) && UserNode(b)[5..] == Decimal(b);
      DecimalInjective(a, b);
    }
    if EntitlementNode(a) == EntitlementNode(b) {
      assert EntitlementNode(a)[12..] == Decimal(a) && EntitlementNode(b)[12..] == Decimal(b);
      DecimalInjective(a, b);
    }
    assert UserNode(a)[0] == 'U' && ProfileNode(b)[0] == 'E' && EntitlementNode(b)[0] == 'E';
    assert ProfileNode(a)[3] == 'e' && EntitlementNode(b)[3] == 'i';
  }

  // ----- Outgoing edges of one kind

  function Leaving(edges: seq<Edge>, id: string, kind: EdgeType): seq<Edge> {
    OfKind(EdgesFrom(edges, id), kind)
  }

  lemma LeavingAppend(edges: seq<Edge>, e: Edge, id: string, kind: EdgeType)
    ensures Leaving(edges + [e], id, kind) ==
            Leaving(edges, id, kind) + if e.source == id && e.kind == kind then [e] else []
  {
    assert (edges + [e])[..|edges|] == edges;
    var before := EdgesFrom(edges, id);
    assert (before + [e])[..|before|] == before;
    assert before + [] == before;
    assert Leaving(edges, id, kind) + [] == Leaving(edges, id, kind);
  }

  lemma {:induction false} OfKindMembers(edges: seq<Edge>, kind: EdgeType)
    ensures forall e :: e in OfKind(edges, kind) <==> e in edges && e.kind == kind
  {
    if edges == [] {
    } else {
      var n := |edges| - 1;
      OfKindMembers(edges[..n], kind);
      assert edges == edges[..n] + [edges[n]];
    }
  }

  lemma LeavingMembers(edges: seq<Edge>, id: string, kind: EdgeType)
    ensures forall e :: e in Leaving(edges, id, kind) <==> e in edges && e.source == id && e.kind == kind
  {
    FilterMembers(edges, id);
    OfKindMembers(EdgesFrom(edges, id), kind);
  }

  // ----- The manager chain

  function NextManager(edges: seq<Edge>, id: string): Option<string> {
    var out := SortById(Leaving(edges, id, ManagedBy));
    if out == [] then None else Some(out[0].target)
  }

  /** The MANAGED_BY edge of the node with the least id. */
  ghost predicate LeastManagerEdge(edges: seq<Edge>, id: string, e: Edge) {
    && e in edges && e.source == id && e.kind == ManagedBy
    && forall f :: f in edges && f.source == id && f.kind == ManagedBy ==> LexLeq(e.id, f.id)
  }

  /** The next manager is the target of that edge; there is none exactly when no such edge leaves. */
  lemma NextManagerMeaning(edges: seq<Edge>, id: string)
    ensures var next := NextManager(edges, id);
            && (next == None <==> forall e :: e in edges ==> !(e.source == id && e.kind == ManagedBy))
            && (next.Some? ==> exists e :: LeastManagerEdge(edges, id, e) && e.target == next.value)
  {
    var out := Leaving(edges, id, ManagedBy);
    LeavingMembers(edges, id, ManagedBy);
    SortKeepsMembers(out);
    SortByIdSorts(out);
    hide SortById, Leaving;
    var sorted := SortById(out);
    if sorted != [] {
      var e := sorted[0];
      assert e in sorted;
      forall f | f in edges && f.source == id && f.kind == ManagedBy ensures LexLeq(e.id, f.id) {
        assert f in sorted;
        var k :| 0 <= k < |sorted| && sorted[k] == f;
        LexTotal(e.id, e.id);
      }
      assert LeastManagerEdge(edges, id, e);
    } else {
      forall e | e in edges ensures !(e.source == id && e.kind == ManagedBy) {
        assert e in sorted <==> e in out;
      }
    }
  }

  function ChainAt(start: string, ids: seq<string>, i: nat): string
    requires i <= |ids|
  {
    if i == 0 then start else ids[i - 1]
  }

  /** Each id is the next manager of the one before, nothing repeats, and all are nodes. */
  ghost predicate ManagerWalk(known: set<string>, edges: seq<Edge>, start: string, ids: seq<string>) {
    Distinct([start] + ids) && ManagerSteps(known, edges, start, ids)
  }

  ghost predicate ManagerSteps(known: set<string>, edges: seq<Edge>, start: string, ids: seq<string>) {
    forall i {:trigger ChainAt(start, ids, i)} :: 0 <= i < |ids| ==>
      ids[i] in known && NextManager(edges, ChainAt(start, ids, i)) == Some(ids[i])
  }

  /** A manager walk that stops only where there is no further new manager node. */
  ghost predicate IsManagerChain(known: set<string>, edges: seq<Edge>, start: string, ids: seq<string>) {
    && ManagerWalk(known, edges, start, ids)
    && var last := NextManager(edges, ChainAt(start, ids, |ids|));
       last.None? || last.value in [start] + ids || last.value !in known
  }

  lemma ExtendWalk(known: set<string>, edges: seq<Edge>, start: string, ids: seq<string>, next: string)
    requires ManagerWalk(known, edges, start, ids)
    requires NextManager(edges, ChainAt(start, ids, |ids|)) == Some(next) && next !in [start] + ids && next in known
    ensures ManagerWalk(known, edges, start, ids + [next])
  {
    hide NextManager, Distinct, ManagerSteps, ChainAt;
    DistinctAppend([start] + ids, next);
    assert [start] + (ids + [next]) == ([start] + ids) + [next];
    ExtendSteps(known, edges, start, ids, next);
  }

  lemma ExtendSteps(known: set<string>, edges: seq<Edge>, start: string, ids: seq<string>, next: string)
    requires ManagerSteps(known, edges, start, ids)
    requires NextManager(edges, ChainAt(start, ids, |ids|)) == Some(next) && next in known
    ensures ManagerSteps(known, edges, start, ids + [next])
  {
    hide NextManager, ChainAt;
    forall i | 0 <= i <= |ids|
      ensures (ids + [next])[i] in known && NextManager(edges, ChainAt(start, ids + [next], i)) == Some((ids + [next])[i])
    {
      ChainAtAppend(start, ids, next, i);
    }
  }

  lemma ChainAtAppend(start: string, ids: seq<string>, next: string, i: nat)
    requires i <= |ids|
    ensures ChainAt(start, ids + [next], i) == ChainAt(start, ids, i)
  {
  }

  lemma DistinctAppend(ids: seq<string>, next: string)
    requires Distinct(ids) && next !in ids
    ensures Distinct(ids + [next])
  {
  }

  method FirstManager(g: Graph, id: string) returns (next: Option<string>)
    requires g.Valid()
    ensures next == NextManager(g.edges, id)
  {
    var managers := g.Outgoing(id, Some(ManagedBy));
    next := if managers == [] then None else Some(managers[0].target);
  }

  /** The walk up the MANAGED_BY edges, on any graph: it ends and never repeats a node. */
  method FindManagerChain(g: Graph, user: UserId) returns (chain: seq<Node>)
    requires g.Valid()
    ensures IsManagerChain(g.nodes.Keys, g.edges, UserNode(user), Ids(chain))
    ensures forall n :: n in chain ==> n.id in g.nodes && g.nodes[n.id] == n
  {
    hide NextManager, UserNode, ManagerWalk;
    chain := [];
    var current := UserNode(user);
    var seen := {current};
    ghost var start := current;
    assert ManagerWalk(g.nodes.Keys, g.edges, start, Ids(chain)) by { EmptyWalk(g.nodes.Keys, g.edges, start); }
    while true
      invariant ManagerWalk(g.nodes.Keys, g.edges, start, Ids(chain))
      invariant current == ChainAt(start, Ids(chain), |chain|)
      invariant forall x :: x in seen <==> x in [start] + Ids(chain)
      invariant forall n :: n in chain ==> n.id in g.nodes && g.nodes[n.id] == n
      decreases g.nodes.Keys - seen
    {
      var next := FirstManager(g, current);
      if next.None? || next.value in seen {
        return;
      }
      seen := seen + {next.value};
      if next.value !in g.nodes {
        return;
      }
      ghost var ids := Ids(chain);
      ExtendWalk(g.nodes.Keys, g.edges, start, ids, next.value);
      assert g.nodes[next.value].id == next.value;
      chain := chain + [g.nodes[next.value]];
      assert Ids(chain) == ids + [next.value];
      current := next.value;
    }
  }

  lemma EmptyWalk(known: set<string>, edges: seq<Edge>, start: string)
    ensures ManagerWalk(known, edges, start, Ids([]))
  {
  }

  /** The graph shows a directory: every user is a node whose next manager is the stored one. */
  ghost predicate ShowsManagers(known: set<string>, edges: seq<Edge>, users: set<UserId>, m: Managers) {
    forall u :: u in users ==>
      && UserNode(u) in known
      && NextManager(edges, UserNode(u)) == if u in m then Some(UserNode(m[u])) else None
  }

  lemma {:induction false} ChainFollowsManagers(known: set<string>, edges: seq<Edge>, users: set<UserId>, m: Managers,
                                                u: UserId, ids: seq<string>, i: nat)
    requires ShowsManagers(known, edges, users, m) && u in users
    requires forall x :: x in m ==> x in users && m[x] in users
    requires ManagerWalk(known, edges, UserNode(u), ids) && i <= |ids|
    ensures Up(m, u, i).Some? && Up(m, u, i).value in users
    ensures ChainAt(UserNode(u), ids, i) == UserNode(Up(m, u, i).value)
    decreases i
  {
    hide NextManager, UserNode, ManagerWalk, ShowsManagers, Up;
    if i > 0 {
      ChainFollowsManagers(known, edges, users, m, u, ids, i - 1);
      var v := Up(m, u, i - 1).value;
      WalkStep(known, edges, UserNode(u), ids, i - 1);
      ShownManager(known, edges, users, m, v);
      UpOneMore(m, u, i - 1);
    } else {
      UpZero(m, u);
    }
  }

  lemma UpZero(m: Managers, u: UserId)
    ensures Up(m, u, 0) == Some(u)
  {
  }

  lemma WalkStep(known: set<string>, edges: seq<Edge>, start: string, ids: seq<string>, i: nat)
    requires ManagerWalk(known, edges, start, ids) && i < |ids|
    ensures NextManager(edges, ChainAt(start, ids, i)) == Some(ids[i])
  {
  }

  lemma ShownManager(known: set<string>, edges: seq<Edge>, users: set<UserId>, m: Managers, v: UserId)
    requires ShowsManagers(known, edges, users, m) && v in users
    ensures NextManager(edges, UserNode(v)) == if v in m then Some(UserNode(m[v])) else None
  {
  }

  lemma UpOneMore(m: Managers, u: UserId, i: nat)
    requires Up(m, u, i).Some?
    ensures Up(m, u, i + 1) == Lookup(m, Up(m, u, i).value)
  {
    var v := Up(m, u, i).value;
    UpAdd(m, u, i, 1);
    if v in m {
      assert Up(m, v, 1) == Up(m, m[v], 0);
    }
  }

  /** In an acyclic relation a chain never returns to one of its own members. */
  lemma ManagerIsNew(m: Managers, u: UserId, n: nat, k: nat)
    requires Acyclic(m) && k <= n && Up(m, u, n + 1).Some?
    requires Up(m, u, k).Some?
    ensures Up(m, u, k) != Up(m, u, n + 1)
  {
    UpAdd(m, u, k, n + 1 - k);
  }

  /** The ids are the chain of managers above `u`, as far as they go. */
  ghost predicate FollowsManagers(m: Managers, u: UserId, ids: seq<string>) {
    forall i :: 0 <= i <= |ids| ==> Up(m, u, i).Some? && ChainAt(UserNode(u), ids, i) == UserNode(Up(m, u, i).value)
  }

  /** The ids list every manager above `u`, in order, up to one who has no manager. */
  ghost predicate CompleteChain(m: Managers, u: UserId, ids: seq<string>) {
    && (forall i :: 0 <= i < |ids| ==> Up(m, u, i + 1).Some? && ids[i] == UserNode(Up(m, u, i + 1).value))
    && Up(m, u, |ids| + 1) == None
  }

  /** One more manager would be a node that the walk has not visited. */
  lemma NextIsNew(m: Managers, u: UserId, ids: seq<string>, top: UserId)
    requires Acyclic(m) && FollowsManagers(m, u, ids) && Up(m, u, |ids|) == Some(top) && top in m
    ensures UserNode(m[top]) !in [UserNode(u)] + ids
  {
    hide Acyclic, UserNode, Up;
    var n := |ids|;
    UpOneMore(m, u, n);
    if UserNode(m[top]) in [UserNode(u)] + ids {
      var k :| 0 <= k <= n && ([UserNode(u)] + ids)[k] == UserNode(m[top]);
      assert ChainAt(UserNode(u), ids, k) == UserNode(m[top]);
      NodeIdsDiffer(m[top], Up(m, u, k).value);
      ManagerIsNew(m, u, n, k);
    }
  }

  lemma ListsManagers(m: Managers, u: UserId, ids: seq<string>)
    requires FollowsManagers(m, u, ids) && Up(m, u, |ids| + 1) == None
    ensures CompleteChain(m, u, ids)
  {
    hide UserNode, Up;
    forall i | 0 <= i < |ids|
      ensures Up(m, u, i + 1).Some? && ids[i] == UserNode(Up(m, u, i + 1).value)
    {
      assert ids[i] == ChainAt(UserNode(u), ids, i + 1);
    }
  }

  lemma ChainStops(known: set<string>, edges: seq<Edge>, start: string, ids: seq<string>)
    requires IsManagerChain(known, edges, start, ids)
    ensures ManagerWalk(known, edges, start, ids)
    ensures var next := NextManager(edges, ChainAt(start, ids, |ids|));
            next.Some? && next.value in known ==> next.value in [start] + ids
  {
    hide ManagerWalk, NextManager;
  }

  /** On a graph that shows an acyclic directory the chain is complete: it lists every manager
      above the user, in order, up to one who has no manager. */
  lemma ChainIsComplete(known: set<string>, edges: seq<Edge>, users: set<UserId>, m: Managers, u: UserId, ids: seq<string>)
    requires ShowsManagers(known, edges, users, m) && u in users
    requires forall x :: x in m ==> x in users && m[x] in users
    requires Acyclic(m)
    requires IsManagerChain(known, edges, UserNode(u), ids)
    ensures CompleteChain(m, u, ids)
  {
    hide NextManager, UserNode, Acyclic, ManagerWalk, IsManagerChain, ShowsManagers, CompleteChain, Up;
    ChainStops(known, edges, UserNode(u), ids);
    forall i | 0 <= i <= |ids|
      ensures Up(m, u, i).Some? && Up(m, u, i).value in users
      ensures ChainAt(UserNode(u), ids, i) == UserNode(Up(m, u, i).value)
    {
      ChainFollowsManagers(known, edges, users, m, u, ids, i);
    }
    var top := Up(m, u, |ids|).value;
    UpOneMore(m, u, |ids|);
    if top in m {
      NextIsNew(m, u, ids, top);
      ShownManager(known, edges, users, m, top);
      ShownNode(known, edges, users, m, m[top]);
    }
    ListsManagers(m, u, ids);
  }

  lemma ShownNode(known: set<string>, edges: seq<Edge>, users: set<UserId>, m: Managers, v: UserId)
    requires ShowsManagers(known, edges, users, m) && v in users
    ensures UserNode(v) in known
  {
  }

  // ----- Building the graph

  /** The edges of the MANAGED_BY loop that leave one user, as manager ids. */
  function ManagersIn(rows: seq<ProfileRow>, users: set<UserId>, u: UserId): seq<UserId> {
    if rows == [] then []
    else
      var n := |rows| - 1;
      var row := rows[n];
      ManagersIn(rows[..n], users, u) +
      if row.user == u && row.manager.Some? && u in users && row.manager.value in users then [row.manager.value] else []
  }

  function EntitlementsIn(rows: seq<AssignmentRow>, users: set<UserId>, entitlements: set<nat>, u: UserId): seq<nat> {
    if rows == [] then []
    else
      var n := |rows| - 1;
      var row := rows[n];
      EntitlementsIn(rows[..n], users, entitlements, u) +
      if row.user == u && u in users && row.entitlement in entitlements then [row.entitlement] else []
  }

  ghost predicate TargetsAre(edges: seq<Edge>, ids: seq<string>) {
    |edges| == |ids| && forall i :: 0 <= i < |ids| ==> edges[i].target == ids[i]
  }

  function UserNodes(us: seq<UserId>): seq<string> {
    seq(|us|, i requires 0 <= i < |us| => UserNode(us[i]))
  }

  function EntitlementNodes(es: seq<nat>): seq<string> {
    seq(|es|, i requires 0 <= i < |es| => EntitlementNode(es[i]))
  }

  ghost function UserIds(rows: seq<UserRow>): set<UserId> { set r | r in rows :: r.id }
  ghost function EntitlementIds(rows: seq<EntitlementRow>): set<nat> { set r | r in rows :: r.id }

  /** Which of the three node families are present, and how entitlement nodes are labelled. */
  ghost predicate NodesAre(nodes: map<string, Node>, users: set<UserId>, entitlements: set<nat>) {
    && (forall u: UserId :: UserNode(u) in nodes <==> u in users)
    && (forall e: nat :: EntitlementNode(e) in nodes <==> e in entitlements)
    && (forall e: nat :: e in entitlements ==> EntitlementNodeFor(nodes[EntitlementNode(e)].sourceId) == EntitlementNode(e))
  }

  lemma NodeAdded(nodes: map<string, Node>, users: set<UserId>, entitlements: set<nat>, id: nat, node: Node)
    requires NodesAre(nodes, users, entitlements)
    ensures node.id == UserNode(id) ==> NodesAre(nodes[node.id := node], users + {id}, entitlements)
    ensures node.id == ProfileNode(id) ==> NodesAre(nodes[node.id := node], users, entitlements)
    ensures node.id == EntitlementNode(id) && node.sourceId == Decimal(id) ==>
      NodesAre(nodes[node.id := node], users, entitlements + {id})
  {
    forall a: nat
      ensures UserNode(a) == UserNode(id) ==> a == id
      ensures EntitlementNode(a) == EntitlementNode(id) ==> a == id
      ensures UserNode(a) != ProfileNode(id) && UserNode(a) != EntitlementNode(id)
      ensures EntitlementNode(a) != ProfileNode(id) && EntitlementNode(a) != UserNode(id)
    {
      NodeIdsDiffer(a, id);
      NodeIdsDiffer(id, a);
    }
    hide UserNode, ProfileNode, EntitlementNode, EntitlementNodeFor, Decimal;
    var nodes' := nodes[node.id := node];
    if node.id == UserNode(id) {
      assert NodesAre(nodes', users + {id}, entitlements);
    }
    if node.id == ProfileNode(id) {
      assert NodesAre(nodes', users, entitlements);
    }
    if node.id == EntitlementNode(id) && node.sourceId == Decimal(id) {
      assert NodesAre(nodes', users, entitlements + {id});
    }
  }

  method AddNodes(g: Graph, users: seq<UserRow>, profiles: seq<ProfileRow>, entitlements: seq<EntitlementRow>)
    requires g.Valid() && g.nodes == map[] && g.edges == []
    modifies g
    ensures g.Valid() && g.edges == []
    ensures NodesAre(g.nodes, UserIds(users), EntitlementIds(entitlements))
  {
    NoNodes();
    hide NodesAre, UserNode, ProfileNode, EntitlementNode, Decimal, Graph.Valid;
    for i := 0 to |users|
      invariant g.Valid() && g.edges == [] && NodesAre(g.nodes, UserIds(users[..i]), {})
    {
      var row := users[i];
      ListedNext(users, entitlements, i);
      var node := Node(UserNode(row.id), NodeType.User, row.name, Decimal(row.id));
      NodeAdded(g.nodes, UserIds(users[..i]), {}, row.id, node);
      g.AddNode(node);
    }
    assert users[..|users|] == users;
    for i := 0 to |profiles|
      invariant g.Valid() && g.edges == [] && NodesAre(g.nodes, UserIds(users), {})
    {
      var node := Node(ProfileNode(profiles[i].id), NodeType.EnterpriseProfile, "Enterprise profile", Decimal(profiles[i].id));
      NodeAdded(g.nodes, UserIds(users), {}, profiles[i].id, node);
      g.AddNode(node);
    }
    for i := 0 to |entitlements|
      invariant g.Valid() && g.edges == [] && NodesAre(g.nodes, UserIds(users), EntitlementIds(entitlements[..i]))
    {
      var row := entitlements[i];
      ListedNext(users, entitlements, i);
      var node := Node(EntitlementNode(row.id), NodeType.Entitlement, row.name, Decimal(row.id));
      NodeAdded(g.nodes, UserIds(users), EntitlementIds(entitlements[..i]), row.id, node);
      g.AddNode(node);
    }
    assert entitlements[..|entitlements|] == entitlements;
  }

  lemma NoNodes()
    ensures NodesAre(map[], {}, {}) && UserIds([]) == {} && EntitlementIds([]) == {}
  {
  }

  lemma ListedNext(users: seq<UserRow>, entitlements: seq<EntitlementRow>, i: nat)
    ensures i < |users| ==> UserIds(users[..i + 1]) == UserIds(users[..i]) + {users[i].id}
    ensures i < |entitlements| ==> EntitlementIds(entitlements[..i + 1]) == EntitlementIds(entitlements[..i]) + {entitlements[i].id}
  {
    if i < |users| {
      assert users[..i + 1] == users[..i] + [users[i]];
    }
    if i < |entitlements| {
      assert entitlements[..i + 1] == entitlements[..i] + [entitlements[i]];
    }
  }

  /** MANAGED_BY edges leave a user for exactly the managers in the rows, HAS_ENTITLEMENT edges for
      exactly the assigned entitlements, one edge per row. */
  ghost predicate EdgesShow(edges: seq<Edge>, profiles: seq<ProfileRow>, assignments: seq<AssignmentRow>,
                            users: set<UserId>, entitlements: set<nat>)
  {
    && (forall u: UserId :: TargetsAre(Leaving(edges, UserNode(u), ManagedBy), UserNodes(ManagersIn(profiles, users, u))))
    && (forall u: UserId ::
          TargetsAre(Leaving(edges, UserNode(u), HasEntitlement), EntitlementNodes(EntitlementsIn(assignments, users, entitlements, u))))
  }

  /** One more assignment row lists its entitlement for its user. */
  lemma AssignmentListed(assignments: seq<AssignmentRow>, row: AssignmentRow, users: set<UserId>, entitlements: set<nat>, u: UserId)
    requires row.user in users && row.entitlement in entitlements
    ensures EntitlementsIn(assignments + [row], users, entitlements, u) ==
            EntitlementsIn(assignments, users, entitlements, u) + if row.user == u then [row.entitlement] else []
  {
    assert (assignments + [row])[..|assignments|] == assignments;
  }

  lemma TargetAdded(edges: seq<Edge>, xs: seq<nat>, e: Edge, x: nat)
    requires TargetsAre(edges, EntitlementNodes(xs)) && e.target == EntitlementNode(x)
    ensures TargetsAre(edges + [e], EntitlementNodes(xs + [x]))
  {
    hide EntitlementNode;
  }

  lemma AssignmentEdge(edges: seq<Edge>, e: Edge, assignments: seq<AssignmentRow>, row: AssignmentRow,
                       users: set<UserId>, entitlements: set<nat>)
    requires EdgesShow(edges, [], assignments, users, entitlements)
    requires row.user in users && row.entitlement in entitlements
    requires e.source == UserNode(row.user) && e.target == EntitlementNode(row.entitlement) && e.kind == HasEntitlement
    ensures EdgesShow(edges + [e], [], assignments + [row], users, entitlements)
  {
    hide Leaving, TargetsAre, EntitlementsIn, ManagersIn, UserNode, EntitlementNode, UserNodes, EntitlementNodes;
    forall u: UserId
      ensures TargetsAre(Leaving(edges + [e], UserNode(u), ManagedBy), UserNodes(ManagersIn([], users, u)))
    {
      LeavingAppend(edges, e, UserNode(u), ManagedBy);
      assert Leaving(edges, UserNode(u), ManagedBy) + [] == Leaving(edges, UserNode(u), ManagedBy);
    }
    forall u: UserId
      ensures TargetsAre(Leaving(edges + [e], UserNode(u), HasEntitlement),
                         EntitlementNodes(EntitlementsIn(assignments + [row], users, entitlements, u)))
    {
      var out, xs := Leaving(edges, UserNode(u), HasEntitlement), EntitlementsIn(assignments, users, entitlements, u);
      LeavingAppend(edges, e, UserNode(u), HasEntitlement);
      AssignmentListed(assignments, row, users, entitlements, u);
      NodeIdsDiffer(u, row.user);
      if u == row.user {
        TargetAdded(out, xs, e, row.entitlement);
      } else {
        assert out + [] == out && xs + [] == xs;
      }
    }
  }

  lemma SkippedAssignment(edges: seq<Edge>, assignments: seq<AssignmentRow>, row: AssignmentRow,
                          users: set<UserId>, entitlements: set<nat>)
    requires EdgesShow(edges, [], assignments, users, entitlements)
    requires row.user !in users || row.entitlement !in entitlements
    ensures EdgesShow(edges, [], assignments + [row], users, entitlements)
  {
    assert (assignments + [row])[..|assignments|] == assignments;
    forall u: UserId
      ensures EntitlementsIn(assignments + [row], users, entitlements, u) == EntitlementsIn(assignments, users, entitlements, u)
    {
      assert EntitlementsIn(assignments, users, entitlements, u) + [] == EntitlementsIn(assignments, users, entitlements, u);
    }
  }

  method AddAssignmentEdges(g: Graph, assignments: seq<AssignmentRow>, ghost users: set<UserId>, ghost entitlements: set<nat>)
    requires g.Valid() && g.edges == [] && NodesAre(g.nodes, users, entitlements)
    modifies g
    ensures g.Valid() && EndpointsAreNodes(g.nodes.Keys, g.edges) && g.nodes == old(g.nodes)
    ensures EdgesShow(g.edges, [], assignments, users, entitlements)
  {
    forall row: AssignmentRow
      ensures UserNode(row.user) in g.nodes <==> row.user in users
      ensures EntitlementNode(row.entitlement) in g.nodes <==> row.entitlement in entitlements
    {
    }
    hide EdgesShow, EndpointsAreNodes, UserNode, EntitlementNode, Graph.Valid, NodesAre;
    for i := 0 to |assignments|
      invariant g.Valid() && EndpointsAreNodes(g.nodes.Keys, g.edges) && g.nodes == old(g.nodes)
      invariant EdgesShow(g.edges, [], assignments[..i], users, entitlements)
    {
      var row := assignments[i];
      assert assignments[..i + 1] == assignments[..i] + [row];
      ghost var before := g.edges;
      g.AddEdgeIfNodesExist(UserNode(row.user), EntitlementNode(row.entitlement), HasEntitlement);
      if row.user in users && row.entitlement in entitlements {
        AssignmentEdge(before, g.edges[|before|], assignments[..i], row, users, entitlements);
      } else {
        SkippedAssignment(before, assignments[..i], row, users, entitlements);
        assert g.edges == before;
      }
    }
    assert assignments[..|assignments|] == assignments;
  }

  lemma OtherEdge(edges: seq<Edge>, e: Edge, profiles: seq<ProfileRow>, assignments: seq<AssignmentRow>,
                  users: set<UserId>, entitlements: set<nat>)
    requires EdgesShow(edges, profiles, assignments, users, entitlements)
    requires e.kind != ManagedBy && e.kind != HasEntitlement
    ensures EdgesShow(edges + [e], profiles, assignments, users, entitlements)
  {
    forall u: UserId
      ensures Leaving(edges + [e], UserNode(u), ManagedBy) == Leaving(edges, UserNode(u), ManagedBy)
      ensures Leaving(edges + [e], UserNode(u), HasEntitlement) == Leaving(edges, UserNode(u), HasEntitlement)
    {
      LeavingAppend(edges, e, UserNode(u), ManagedBy);
      LeavingAppend(edges, e, UserNode(u), HasEntitlement);
    }
  }

  /** One profile row: its MANAGED_BY edge appears exactly when both users are nodes. */
  lemma ProfileEdge(edges: seq<Edge>, more: seq<Edge>, profiles: seq<ProfileRow>, row: ProfileRow,
                    assignments: seq<AssignmentRow>, users: set<UserId>, entitlements: set<nat>)
    requires EdgesShow(edges, profiles, assignments, users, entitlements)
    requires var linked := row.manager.Some? && row.user in users && row.manager.value in users;
             if linked then |more| == 1 && more[0].source == UserNode(row.user) && more[0].kind == ManagedBy
                            && more[0].target == UserNode(row.manager.value)
             else more == []
    ensures EdgesShow(edges + more, profiles + [row], assignments, users, entitlements)
  {
    assert (profiles + [row])[..|profiles|] == profiles;
    forall u: UserId
      ensures TargetsAre(Leaving(edges + more, UserNode(u), ManagedBy), UserNodes(ManagersIn(profiles + [row], users, u)))
      ensures TargetsAre(Leaving(edges + more, UserNode(u), HasEntitlement),
                         EntitlementNodes(EntitlementsIn(assignments, users, entitlements, u)))
    {
      assert ManagersIn(profiles, users, u) + [] == ManagersIn(profiles, users, u);
      if more == [] {
        assert edges + more == edges;
      } else {
        assert more == [more[0]];
        LeavingAppend(edges, more[0], UserNode(u), ManagedBy);
        LeavingAppend(edges, more[0], UserNode(u), HasEntitlement);
        NodeIdsDiffer(u, row.user);
      }
    }
  }

  /** The edge that follows `n` others, when both ends are nodes. */
  function EdgeAfter(known: set<string>, n: nat, source: string, target: string, kind: EdgeType): seq<Edge> {
    if source in known && target in known then [Edge(EdgeId(n + 1), source, target, kind)] else []
  }

  /** The edges of one profile row: to the profile, then to the manager's node. */
  function ProfileRowEdges(known: set<string>, n: nat, row: ProfileRow): seq<Edge> {
    var profile := EdgeAfter(known, n, UserNode(row.user), ProfileNode(row.id), ConnectedTo);
    profile + if row.manager.None? then []
              else EdgeAfter(known, n + |profile|, UserNode(row.user), UserNode(row.manager.value), ManagedBy)
  }

  /** One turn of the profile loop: the profile edge, then the manager edge if there is one. */
  method AddProfileRow(g: Graph, row: ProfileRow, ghost profiles: seq<ProfileRow>, ghost assignments: seq<AssignmentRow>,
                       ghost users: set<UserId>, ghost entitlements: set<nat>)
    requires g.Valid() && EndpointsAreNodes(g.nodes.Keys, g.edges)
    requires forall u: UserId :: UserNode(u) in g.nodes <==> u in users
    requires EdgesShow(g.edges, profiles, assignments, users, entitlements)
    modifies g
    ensures g.Valid() && EndpointsAreNodes(g.nodes.Keys, g.edges) && g.nodes == old(g.nodes)
    ensures EdgesShow(g.edges, profiles + [row], assignments, users, entitlements)
    ensures g.edges == old(g.edges) + ProfileRowEdges(g.nodes.Keys, |old(g.edges)|, row)
  {
    hide EdgesShow, EndpointsAreNodes, UserNode, ProfileNode, Graph.Valid;
    ghost var before := g.edges;
    g.AddEdgeIfNodesExist(UserNode(row.user), ProfileNode(row.id), ConnectedTo);
    ghost var middle := g.edges;
    if middle != before {
      OtherEdge(before, middle[|before|], profiles, assignments, users, entitlements);
    }
    ghost var more: seq<Edge> := [];
    if row.manager.Some? {
      g.AddEdgeIfNodesExist(UserNode(row.user), UserNode(row.manager.value), ManagedBy);
      more := if row.user in users && row.manager.value in users then [g.edges[|middle|]] else [];
    }
    assert g.edges == middle + more;
    ProfileEdge(middle, more, profiles, row, assignments, users, entitlements);
  }

  method AddProfileEdges(g: Graph, profiles: seq<ProfileRow>, ghost assignments: seq<AssignmentRow>,
                         ghost users: set<UserId>, ghost entitlements: set<nat>)
    requires g.Valid() && EndpointsAreNodes(g.nodes.Keys, g.edges) && NodesAre(g.nodes, users, entitlements)
    requires EdgesShow(g.edges, [], assignments, users, entitlements)
    modifies g
    ensures g.Valid() && EndpointsAreNodes(g.nodes.Keys, g.edges) && g.nodes == old(g.nodes)
    ensures EdgesShow(g.edges, profiles, assignments, users, entitlements)
  {
    hide EdgesShow, EndpointsAreNodes, UserNode, Graph.Valid;
    for i := 0 to |profiles|
      invariant g.Valid() && EndpointsAreNodes(g.nodes.Keys, g.edges) && g.nodes == old(g.nodes)
      invariant EdgesShow(g.edges, profiles[..i], assignments, users, entitlements)
    {
      assert profiles[..i + 1] == profiles[..i] + [profiles[i]];
      AddProfileRow(g, profiles[i], profiles[..i], assignments, users, entitlements);
    }
    assert profiles[..|profiles|] == profiles;
  }

  /** The identity, entitlement and manager part of the builder. */
  method BuildGraph(users: seq<UserRow>, profiles: seq<ProfileRow>, entitlements: seq<EntitlementRow>, assignments: seq<AssignmentRow>)
    returns (g: Graph)
    ensures fresh(g) && g.Valid() && EndpointsAreNodes(g.nodes.Keys, g.edges)
    ensures NodesAre(g.nodes, UserIds(users), EntitlementIds(entitlements))
    ensures EdgesShow(g.edges, profiles, assignments, UserIds(users), EntitlementIds(entitlements))
  {
    g := new Graph();
    AddNodes(g, users, profiles, entitlements);
    AddAssignmentEdges(g, assignments, UserIds(users), EntitlementIds(entitlements));
    AddProfileEdges(g, profiles, assignments, UserIds(users), EntitlementIds(entitlements));
  }

  /** The rows are a listing of the directory's users and profiles. */
  ghost predicate Lists(users: seq<UserRow>, profiles: seq<ProfileRow>, d: Directory) {
    && UserIds(users) == d.users.Keys
    && (forall i, j :: 0 <= i < j < |profiles| ==> profiles[i].user != profiles[j].user)
    && (forall r :: r in profiles ==> r.user in d.profiles && r.manager == d.profiles[r.user].manager)
    && (forall u :: u in d.profiles ==> exists r :: r in profiles && r.user == u)
  }

  lemma {:induction false} NoManagersListed(rows: seq<ProfileRow>, users: set<UserId>, u: UserId)
    requires forall r :: r in rows ==> r.user != u
    ensures ManagersIn(rows, users, u) == []
    decreases |rows|
  {
    if rows == [] {
    } else {
      NoManagersListed(rows[..|rows| - 1], users, u);
    }
  }

  /** Of distinct profile rows only the user's own contributes. */
  lemma {:induction false} ManagersListed(rows: seq<ProfileRow>, users: set<UserId>, k: nat)
    requires forall i, j :: 0 <= i < j < |rows| ==> rows[i].user != rows[j].user
    requires k < |rows|
    ensures ManagersIn(rows, users, rows[k].user) ==
              if rows[k].manager.Some? && rows[k].user in users && rows[k].manager.value in users
              then [rows[k].manager.value] else []
    decreases |rows|
  {
    var n := |rows| - 1;
    if k < n {
      ManagersListed(rows[..n], users, k);
    } else {
      NoManagersListed(rows[..n], users, rows[n].user);
    }
  }

  lemma StoredManagerListed(users: seq<UserRow>, profiles: seq<ProfileRow>, d: Directory, u: UserId)
    requires Lists(users, profiles, d) && References(d.users, d.profiles) && u in d.users
    ensures var m := ManagersOf(d.users, d.profiles);
            ManagersIn(profiles, UserIds(users), u) == if u in m then [m[u]] else []
  {
    hide ManagersIn;
    if u in d.profiles {
      var r :| r in profiles && r.user == u;
      var k :| 0 <= k < |profiles| && profiles[k] == r;
      ManagersListed(profiles, UserIds(users), k);
    } else {
      NoManagersListed(profiles, UserIds(users), u);
    }
  }

  lemma SoleTargetIsNext(edges: seq<Edge>, id: string, us: seq<UserId>)
    requires TargetsAre(Leaving(edges, id, ManagedBy), UserNodes(us)) && |us| <= 1
    ensures NextManager(edges, id) == if us == [] then None else Some(UserNode(us[0]))
  {
    hide Leaving, UserNode;
    var out := Leaving(edges, id, ManagedBy);
    if us == [] {
      assert out == [];
    } else {
      assert out == [out[0]] && SortById([]) == [];
    }
  }

  /** A graph built from a directory shows its manager relation, so the chain query on it is complete. */
  lemma BuiltGraphShowsManagers(known: set<string>, edges: seq<Edge>, users: seq<UserRow>, profiles: seq<ProfileRow>,
                                assignments: seq<AssignmentRow>, entitlements: set<nat>, d: Directory)
    requires Lists(users, profiles, d) && References(d.users, d.profiles)
    requires forall u: UserId :: UserNode(u) in known <==> u in UserIds(users)
    requires EdgesShow(edges, profiles, assignments, UserIds(users), entitlements)
    ensures ShowsManagers(known, edges, d.users.Keys, ManagersOf(d.users, d.profiles))
  {
    hide NextManager, Leaving, ManagersIn, UserNode, TargetsAre, Lists, ManagersOf, References;
    ListedUsers(users, profiles, d);
    forall u | u in d.users
      ensures var m := ManagersOf(d.users, d.profiles);
              NextManager(edges, UserNode(u)) == if u in m then Some(UserNode(m[u])) else None
    {
      StoredManagerListed(users, profiles, d, u);
      SoleTargetIsNext(edges, UserNode(u), ManagersIn(profiles, UserIds(users), u));
    }
  }

  /** On the graph of any directory that the endpoints reach, the manager-chain query returns the
      complete chain of stored managers, up to a user who has none. */
  lemma ReachedChainsAreComplete(requests: seq<Request>, rule: ScimPayloads.EmailRule, known: set<string>, edges: seq<Edge>,
                                 users: seq<UserRow>, profiles: seq<ProfileRow>, assignments: seq<AssignmentRow>,
                                 entitlements: set<nat>, u: UserId, ids: seq<string>)
    requires var d := Run(START, requests, rule).dir; Lists(users, profiles, d) && u in d.users
    requires forall x: UserId :: UserNode(x) in known <==> x in UserIds(users)
    requires EdgesShow(edges, profiles, assignments, UserIds(users), entitlements)
    requires IsManagerChain(known, edges, UserNode(u), ids)
    ensures var d := Run(START, requests, rule).dir; CompleteChain(ManagersOf(d.users, d.profiles), u, ids)
  {
    hide Run, EdgesShow, IsManagerChain, UserNode, ShowsManagers, Acyclic, Lists, CompleteChain;
    ReachedInv(requests, rule);
    var d := Run(START, requests, rule).dir;
    BuiltGraphShowsManagers(known, edges, users, profiles, assignments, entitlements, d);
    ListedUsers(users, profiles, d);
    ChainIsComplete(known, edges, d.users.Keys, ManagersOf(d.users, d.profiles), u, ids);
  }

  lemma ListedUsers(users: seq<UserRow>, profiles: seq<ProfileRow>, d: Directory)
    requires Lists(users, profiles, d)
    ensures UserIds(users) == d.users.Keys
  {
  }

  // ----- Access queries

  /** The existing nodes that the edges lead to, edge by edge. */
  function PresentTargets(nodes: map<string, Node>, edges: seq<Edge>): seq<Node> {
    if edges == [] then []
    else
      var n := |edges| - 1;
      PresentTargets(nodes, edges[..n]) + if edges[n].target in nodes then [nodes[edges[n].target]] else []
  }

  lemma {:induction false} PresentTargetsMembers(nodes: map<string, Node>, edges: seq<Edge>)
    ensures forall x :: x in PresentTargets(nodes, edges) <==> exists e :: e in edges && e.target in nodes && nodes[e.target] == x
    decreases |edges|
  {
    if edges == [] {
    } else {
      var n := |edges| - 1;
      PresentTargetsMembers(nodes, edges[..n]);
      assert edges == edges[..n] + [edges[n]];
    }
  }

  /** The entitlement nodes of a user, in the order of the edge ids. */
  function EntitlementsOf(nodes: map<string, Node>, edges: seq<Edge>, user: UserId): seq<Node> {
    PresentTargets(nodes, SortById(Leaving(edges, UserNode(user), HasEntitlement)))
  }

  /** They are exactly the existing nodes that the user's HAS_ENTITLEMENT edges lead to. */
  lemma EntitlementsOfMembers(nodes: map<string, Node>, edges: seq<Edge>, user: UserId)
    ensures forall x :: x in EntitlementsOf(nodes, edges, user) <==>
      exists e :: e in edges && e.source == UserNode(user) && e.kind == HasEntitlement && e.target in nodes && nodes[e.target] == x
  {
    hide UserNode, PresentTargets;
    var out := Leaving(edges, UserNode(user), HasEntitlement);
    SortKeepsMembers(out);
    LeavingMembers(edges, UserNode(user), HasEntitlement);
    PresentTargetsMembers(nodes, SortById(out));
  }

  method FindEntitlements(g: Graph, user: UserId) returns (found: seq<Node>)
    requires g.Valid()
    ensures found == EntitlementsOf(g.nodes, g.edges, user)
  {
    var out := g.Outgoing(UserNode(user), Some(HasEntitlement));
    hide Graph.Valid, Leaving, UserNode, SortById;
    found := [];
    for i := 0 to |out|
      invariant found == PresentTargets(g.nodes, out[..i])
    {
      assert out[..i + 1][..i] == out[..i];
      if out[i].target in g.nodes {
        found := found + [g.nodes[out[i].target]];
      }
    }
    assert out[..|out|] == out;
  }

  /** The entitlement nodes of this user carry their own id as source id. */
  ghost predicate EntitlementsLabelled(nodes: map<string, Node>, edges: seq<Edge>, user: UserId) {
    forall e :: e in edges && e.source == UserNode(user) && e.kind == HasEntitlement && e.target in nodes ==>
      EntitlementNodeFor(nodes[e.target].sourceId) == e.target != UserNode(user)
  }

  lemma MatchedTargets(out: seq<Edge>, xs: seq<nat>, x: nat)
    requires TargetsAre(out, EntitlementNodes(xs))
    ensures x in xs <==> exists e :: e in out && e.target == EntitlementNode(x)
  {
    if x in xs {
      var i :| 0 <= i < |xs| && xs[i] == x;
      assert out[i] in out;
    }
    if e :| e in out && e.target == EntitlementNode(x) {
      var i :| 0 <= i < |out| && out[i] == e;
      NodeIdsDiffer(xs[i], x);
    }
  }

  lemma LabelledTarget(nodes: map<string, Node>, users: set<UserId>, entitlements: set<nat>, u: UserId, xs: seq<nat>, i: nat)
    requires NodesAre(nodes, users, entitlements) && i < |xs| && xs[i] in entitlements
    ensures EntitlementNode(xs[i]) in nodes && EntitlementNode(xs[i]) != UserNode(u)
    ensures EntitlementNodeFor(nodes[EntitlementNode(xs[i])].sourceId) == EntitlementNode(xs[i])
  {
    NodeIdsDiffer(u, xs[i]);
  }

  /** In a built graph a user's entitlement edges lead exactly to the assigned entitlements. */
  lemma BuiltGraphShowsAccess(nodes: map<string, Node>, edges: seq<Edge>, profiles: seq<ProfileRow>, assignments: seq<AssignmentRow>,
                              users: set<UserId>, entitlements: set<nat>, u: UserId)
    requires NodesAre(nodes, users, entitlements) && EdgesShow(edges, profiles, assignments, users, entitlements)
    ensures EntitlementsLabelled(nodes, edges, u)
    ensures forall x: nat :: x in EntitlementsIn(assignments, users, entitlements, u) <==>
      exists e :: e in Leaving(edges, UserNode(u), HasEntitlement) && e.target == EntitlementNode(x)
  {
    var out := Leaving(edges, UserNode(u), HasEntitlement);
    var xs := EntitlementsIn(assignments, users, entitlements, u);
    assert TargetsAre(out, EntitlementNodes(xs));
    forall x: nat { MatchedTargets(out, xs, x); }
    AssignedExist(assignments, users, entitlements, u);
    LeavingMembers(edges, UserNode(u), HasEntitlement);
    hide EdgesShow, NodesAre, UserNode, EntitlementNode, EntitlementNodeFor, Leaving, EntitlementsIn;
    forall e | e in out && e.target in nodes
      ensures EntitlementNodeFor(nodes[e.target].sourceId) == e.target != UserNode(u)
    {
      var i :| 0 <= i < |out| && out[i] == e;
      assert e.target == EntitlementNodes(xs)[i];
      LabelledTarget(nodes, users, entitlements, u, xs, i);
    }
  }

  lemma {:induction false} AssignedExist(assignments: seq<AssignmentRow>, users: set<UserId>, entitlements: set<nat>, u: UserId)
    ensures forall x :: x in EntitlementsIn(assignments, users, entitlements, u) ==> x in entitlements
    decreases |assignments|
  {
    if assignments == [] {
    } else {
      AssignedExist(assignments[..|assignments| - 1], users, entitlements, u);
    }
  }

  /** A found path of exactly one edge from `start` to `target`. */
  ghost predicate Direct(edges: seq<Edge>, start: string, target: string, p: PathResult) {
    && p.GraphPath? && p.found && |p.edges| == 1 && p.edges[0] in edges
    && Ids(p.nodes) == [start, target]
  }

  /** Where the user holds the entitlement, the answer is the direct edge. */
  lemma DirectAnswer(nodes: map<string, Node>, edges: seq<Edge>, user: UserId, e: Edge, p: PathResult)
    requires EndpointsAreNodes(nodes.Keys, edges) && e in edges && e.source == UserNode(user) && e.target != UserNode(user)
    requires Answers(nodes, edges, UserNode(user), e.target, p)
    ensures Direct(edges, UserNode(user), e.target, p)
  {
    hide UserNode;
    assert WalkBetween(edges, UserNode(user), e.target, [UserNode(user), e.target], [e]);
    assert Ids(p.nodes)[0] == UserNode(user) && Ids(p.nodes)[|p.edges|] == e.target;
  }

  /** The path from a user to any entitlement, held or not. */
  method FindAccessPath(g: Graph, user: UserId, entitlement: string) returns (path: PathResult)
    requires g.Valid()
    ensures Answers(g.nodes, g.edges, UserNode(user), EntitlementNodeFor(entitlement), path)
  {
    path := g.ShortestPath(UserNode(user), EntitlementNodeFor(entitlement));
  }

  datatype Access = Access(entitlements: seq<Node>, paths: seq<PathResult>)

  /** The user's entitlements and, entitlement by entitlement, the path to it. In a built graph each
      of these paths is the direct edge. */
  method UserAccess(g: Graph, user: UserId) returns (r: Option<Access>)
    requires g.Valid()
    ensures r.None? <==> UserNode(user) !in g.nodes
    ensures r.Some? ==>
      && r.value.entitlements == EntitlementsOf(g.nodes, g.edges, user)
      && |r.value.paths| == |r.value.entitlements|
      && forall k :: 0 <= k < |r.value.paths| ==>
           Answers(g.nodes, g.edges, UserNode(user), EntitlementNodeFor(r.value.entitlements[k].sourceId), r.value.paths[k])
    ensures r.Some? && EndpointsAreNodes(g.nodes.Keys, g.edges) && EntitlementsLabelled(g.nodes, g.edges, user) ==>
      forall k :: 0 <= k < |r.value.paths| ==>
        Direct(g.edges, UserNode(user), EntitlementNodeFor(r.value.entitlements[k].sourceId), r.value.paths[k])
  {
    hide Answers, Direct, EntitlementNodeFor, UserNode, EntitlementsOf, EntitlementsLabelled, EndpointsAreNodes;
    if UserNode(user) !in g.nodes {
      return None;
    }
    var entitlements := FindEntitlements(g, user);
    var paths: seq<PathResult> := [];
    for i := 0 to |entitlements|
      invariant |paths| == i
      invariant forall k :: 0 <= k < i ==>
        Answers(g.nodes, g.edges, UserNode(user), EntitlementNodeFor(entitlements[k].sourceId), paths[k])
    {
      var path := FindAccessPath(g, user, entitlements[i].sourceId);
      paths := paths + [path];
    }
    r := Some(Access(entitlements, paths));
    if EndpointsAreNodes(g.nodes.Keys, g.edges) && EntitlementsLabelled(g.nodes, g.edges, user) {
      forall k | 0 <= k < |paths|
        ensures Direct(g.edges, UserNode(user), EntitlementNodeFor(entitlements[k].sourceId), paths[k])
      {
        var e := HeldEdge(g.nodes, g.edges, user, entitlements[k]);
        DirectAnswer(g.nodes, g.edges, user, e, paths[k]);
      }
    }
  }

  lemma HeldEdge(nodes: map<string, Node>, edges: seq<Edge>, user: UserId, node: Node) returns (e: Edge)
    requires node in EntitlementsOf(nodes, edges, user) && EntitlementsLabelled(nodes, edges, user)
    ensures e in edges && e.source == UserNode(user)
    ensures e.target == EntitlementNodeFor(node.sourceId) != UserNode(user)
  {
    EntitlementsOfMembers(nodes, edges, user);
    hide EntitlementsOf, UserNode, EntitlementNodeFor;
    e :| e in edges && e.source == UserNode(user) && e.kind == HasEntitlement && e.target in nodes && nodes[e.target] == node;
  }
}
