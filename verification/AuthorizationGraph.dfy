/** The authorization graph: a node dictionary, an edge list and two adjacency
    indexes that are updated in place, and breadth-first shortest path over the
    edges read without direction. */
module AuthorizationGraph {
  import opened Prelude
  import opened Text

  datatype NodeType =
    | User | Group | Application | Entitlement | Delegation
    | CertificationCampaign | ReviewItem | ProvisioningJob | ProvisioningHistory
    | RemediationJob | AuditEvent | Connector | EnterpriseProfile

  datatype EdgeType =
    | MemberOf | HasEntitlement | GrantsAccessTo | ProvisionedBy | ReviewedIn
    | RemediatedBy | ManagedBy | DelegatedTo | ConnectedTo | AuditedBy

  /** `sourceId` is the rendered "source_id" property. */
  datatype Node = Node(id: string, kind: NodeType, caption: string, sourceId: string)

  datatype Edge = Edge(id: string, source: string, target: string, kind: EdgeType)

  /** What shortest_path produces: a GraphPath, or the lookup error raised when the
      discovered route runs through an id that is not a node. */
  datatype PathResult =
    | GraphPath(nodes: seq<Node>, edges: seq<Edge>, found: bool)
    | MissingNode

  // ----- Walks

  /** The edge connects `u` and `v`, in either direction. */
  predicate Joins(e: Edge, u: string, v: string) {
    (e.source == u && e.target == v) || (e.source == v && e.target == u)
  }

  ghost predicate Adjacent(edges: seq<Edge>, u: string, v: string) {
    exists e :: e in edges && Joins(e, u, v)
  }

  ghost predicate IsWalk(edges: seq<Edge>, ids: seq<string>, steps: seq<Edge>) {
    && |ids| == |steps| + 1
    && forall i :: 0 <= i < |steps| ==> steps[i] in edges && Joins(steps[i], ids[i], ids[i + 1])
  }

  ghost predicate WalkBetween(edges: seq<Edge>, u: string, v: string, ids: seq<string>, steps: seq<Edge>) {
    IsWalk(edges, ids, steps) && ids[0] == u && ids[|steps|] == v
  }

  ghost predicate Connected(edges: seq<Edge>, u: string, v: string) {
    exists ids, steps :: WalkBetween(edges, u, v, ids, steps)
  }

  /** No walk between the two ends has fewer than `n` edges. */
  ghost predicate NoShorterWalk(edges: seq<Edge>, u: string, v: string, n: nat) {
    forall ids, steps :: WalkBetween(edges, u, v, ids, steps) ==> n <= |steps|
  }

  ghost predicate EndpointsAreNodes(known: set<string>, edges: seq<Edge>) {
    forall e :: e in edges ==> e.source in known && e.target in known
  }

  ghost function Endpoints(edges: seq<Edge>): set<string> {
    (set e | e in edges :: e.source) + (set e | e in edges :: e.target)
  }

  function Ids(nodes: seq<Node>): seq<string> {
    seq(|nodes|, i requires 0 <= i < |nodes| => nodes[i].id)
  }

  // ----- The edge list filtered by endpoint

  function EdgesFrom(edges: seq<Edge>, id: string): seq<Edge> {
    if edges == [] then []
    else
      var n := |edges| - 1;
      EdgesFrom(edges[..n], id) + if edges[n].source == id then [edges[n]] else []
  }

  function EdgesInto(edges: seq<Edge>, id: string): seq<Edge> {
    if edges == [] then []
    else
      var n := |edges| - 1;
      EdgesInto(edges[..n], id) + if edges[n].target == id then [edges[n]] else []
  }

  function OfKind(edges: seq<Edge>, kind: EdgeType): seq<Edge> {
    if edges == [] then []
    else
      var n := |edges| - 1;
      OfKind(edges[..n], kind) + if edges[n].kind == kind then [edges[n]] else []
  }

  /** The edges of the given kind, or all of them when no kind is asked for. */
  function Selected(edges: seq<Edge>, kind: Option<EdgeType>): seq<Edge> {
    if kind.None? then edges else OfKind(edges, kind.value)
  }

  /** The two filters select exactly the edges with the given endpoint. */
  lemma {:induction false} FilterMembers(edges: seq<Edge>, id: string)
    ensures forall e :: e in EdgesFrom(edges, id) <==> e in edges && e.source == id
    ensures forall e :: e in EdgesInto(edges, id) <==> e in edges && e.target == id
  {
    if edges == [] {
    } else {
      var n := |edges| - 1;
      FilterMembers(edges[..n], id);
      assert edges == edges[..n] + [edges[n]];
    }
  }

  type Index = map<string, seq<Edge>>

  /** The index lists, per node, the edges of `edges` that leave it. */
  ghost predicate IndexesSources(index: Index, edges: seq<Edge>) {
    forall id :: GetOr(index, id, []) == EdgesFrom(edges, id)
  }

  ghost predicate IndexesTargets(index: Index, edges: seq<Edge>) {
    forall id :: GetOr(index, id, []) == EdgesInto(edges, id)
  }

  /** Appending to the edge list and to the one affected index entry keeps an index exact. */
  lemma AppendKeepsIndex(edges: seq<Edge>, e: Edge, outgoing: Index, incoming: Index)
    requires IndexesSources(outgoing, edges) && IndexesTargets(incoming, edges)
    ensures IndexesSources(outgoing[e.source := GetOr(outgoing, e.source, []) + [e]], edges + [e])
    ensures IndexesTargets(incoming[e.target := GetOr(incoming, e.target, []) + [e]], edges + [e])
  {
    assert (edges + [e])[..|edges|] == edges;
    forall id
      ensures EdgesFrom(edges + [e], id) == EdgesFrom(edges, id) + if e.source == id then [e] else []
      ensures EdgesInto(edges + [e], id) == EdgesInto(edges, id) + if e.target == id then [e] else []
    {
    }
  }

  // ----- Sorting by edge id: ids are strings, so "edge:10" precedes "edge:2"

  function EdgeId(n: nat): string {
    "edge:" + Decimal(n)
  }

  predicate LexLeq(a: string, b: string) {
    a == "" || (b != "" && (a[0] < b[0] || (a[0] == b[0] && LexLeq(a[1..], b[1..]))))
  }

  lemma {:induction false} LexTotal(a: string, b: string)
    ensures LexLeq(a, b) || LexLeq(b, a)
  {
    if a == "" || b == "" || a[0] != b[0] {
    } else {
      LexTotal(a[1..], b[1..]);
    }
  }

  lemma {:induction false} LexTransitive(a: string, b: string, c: string)
    requires LexLeq(a, b) && LexLeq(b, c)
    ensures LexLeq(a, c)
  {
    if a == "" || !(a[0] == b[0] == c[0]) {
    } else {
      LexTransitive(a[1..], b[1..], c[1..]);
    }
  }

  /** The strings agree up to position `k`, where `a` has the smaller character. */
  predicate SmallerAt(a: string, b: string, k: nat) {
    k < |a| && k < |b| && a[k] < b[k] && forall i :: 0 <= i < k ==> a[i] == b[i]
  }

  /** The order is that of strings: a prefix comes first, else the first difference decides. */
  lemma {:induction false} LexMeaning(a: string, b: string)
    ensures LexLeq(a, b) <==> a <= b || exists k: nat :: SmallerAt(a, b, k)
    decreases |a|
  {
    if a == "" || b == "" {
    } else if a[0] != b[0] {
      if a[0] < b[0] {
        assert SmallerAt(a, b, 0);
      }
    } else {
      LexMeaning(a[1..], b[1..]);
      if k: nat :| SmallerAt(a[1..], b[1..], k) {
        assert a[k + 1] == a[1..][k] && b[k + 1] == b[1..][k];
        forall i | 0 <= i < k + 1 ensures a[i] == b[i] {
          assert i > 0 ==> a[i] == a[1..][i - 1] && b[i] == b[1..][i - 1];
        }
        assert SmallerAt(a, b, k + 1);
      }
      if k: nat :| SmallerAt(a, b, k) {
        forall i | 0 <= i < k - 1 ensures a[1..][i] == b[1..][i] {
          assert a[i + 1] == b[i + 1];
        }
        assert SmallerAt(a[1..], b[1..], k - 1);
      }
      if a <= b {
        assert a[1..] <= b[1..];
      }
      if a[1..] <= b[1..] {
        assert a == [a[0]] + a[1..] && b == [b[0]] + b[1..];
      }
    }
  }

  ghost predicate SortedById(es: seq<Edge>) {
    forall i, j :: 0 <= i < j < |es| ==> LexLeq(es[i].id, es[j].id)
  }

  /** Places `e` before the first edge whose id is not smaller, which keeps the sort stable. */
  function InsertById(e: Edge, es: seq<Edge>): (r: seq<Edge>)
    ensures multiset(r) == multiset{e} + multiset(es)
  {
    if es == [] || LexLeq(e.id, es[0].id) then [e] + es
    else
      assert es == [es[0]] + es[1..];
      [es[0]] + InsertById(e, es[1..])
  }

  function SortById(es: seq<Edge>): (r: seq<Edge>)
    ensures multiset(r) == multiset(es)
  {
    if es == [] then []
    else
      assert es == [es[0]] + es[1..];
      InsertById(es[0], SortById(es[1..]))
  }

  lemma SortKeepsMembers(es: seq<Edge>)
    ensures forall e :: e in SortById(es) <==> e in es
  {
    forall e ensures e in SortById(es) <==> e in es {
      assert e in SortById(es) <==> e in multiset(SortById(es));
      assert e in es <==> e in multiset(es);
    }
  }

  lemma {:induction false} InsertKeepsSorted(e: Edge, es: seq<Edge>)
    requires SortedById(es)
    ensures SortedById(InsertById(e, es))
  {
    if es == [] {
    } else if LexLeq(e.id, es[0].id) {
      forall j | 0 <= j < |es| ensures LexLeq(e.id, es[j].id) {
        if j > 0 { LexTransitive(e.id, es[0].id, es[j].id); }
      }
    } else {
      InsertKeepsSorted(e, es[1..]);
      LexTotal(e.id, es[0].id);
      var rest := InsertById(e, es[1..]);
      forall j | 0 <= j < |rest| ensures LexLeq(es[0].id, rest[j].id) {
        assert rest[j] in multiset(rest);
        assert rest[j] == e || rest[j] in es[1..];
      }
    }
  }

  /** The sort used for edges_for, outgoing and incoming: ordered by id, nothing lost or added. */
  lemma {:induction false} SortByIdSorts(es: seq<Edge>)
    ensures SortedById(SortById(es)) && multiset(SortById(es)) == multiset(es)
  {
    if es == [] {
    } else {
      SortByIdSorts(es[1..]);
      InsertKeepsSorted(es[0], SortById(es[1..]));
    }
  }

  // ----- The search frontier

  /** One queued tuple: the node reached and the route that reached it. */
  datatype Entry = Entry(current: string, ids: seq<string>, steps: seq<Edge>)

  ghost function Currents(queue: seq<Entry>): set<string> {
    set q | q in queue :: q.current
  }

  /** Every finished node has only discovered neighbours, at most one level deeper. */
  ghost predicate ClosedUnderNeighbours(edges: seq<Edge>, done: set<string>, depth: map<string, nat>) {
    forall u, v :: u in done && Adjacent(edges, u, v) ==>
      u in depth && v in depth && depth[v] <= depth[u] + 1
  }

  /** Routes in the queue are real, and their lengths are the recorded depths. */
  ghost predicate QueueIsSound(edges: seq<Edge>, source: string, queue: seq<Entry>, depth: map<string, nat>) {
    forall q :: q in queue ==>
      && WalkBetween(edges, source, q.current, q.ids, q.steps)
      && q.current in depth && depth[q.current] == |q.steps|
  }

  /** Queue lengths are level by level: `d` first, then `d + 1`. */
  ghost predicate QueueIsLevelled(queue: seq<Entry>, d: nat) {
    && (forall i :: 0 <= i < |queue| ==> d <= |queue[i].steps| <= d + 1)
    && (forall i, j :: 0 <= i < j < |queue| ==> |queue[i].steps| <= |queue[j].steps|)
  }

  ghost predicate Searching(edges: seq<Edge>, source: string, queue: seq<Entry>,
                            done: set<string>, depth: map<string, nat>, d: nat)
  {
    && source in depth && depth[source] == 0
    && depth.Keys <= Endpoints(edges) + {source}
    && QueueIsSound(edges, source, queue, depth)
    && QueueIsLevelled(queue, d)
    && (forall u :: u in done ==> u in depth && depth[u] <= d)
    && ClosedUnderNeighbours(edges, done, depth)
  }

  /** A walk that leaves the finished nodes does so at a discovered node whose depth
      is no greater than its position on the walk. */
  lemma WalkMeetsFrontier(edges: seq<Edge>, source: string, target: string, ids: seq<string>, steps: seq<Edge>,
                          done: set<string>, depth: map<string, nat>)
    returns (i: nat)
    requires WalkBetween(edges, source, target, ids, steps)
    requires source in depth && depth[source] == 0
    requires ClosedUnderNeighbours(edges, done, depth)
    requires target !in done
    ensures i <= |steps| && ids[i] in depth && ids[i] !in done && depth[ids[i]] <= i
  {
    i := 0;
    while ids[i] in done
      invariant i <= |steps| && ids[i] in depth && depth[ids[i]] <= i
      decreases |steps| - i
    {
      assert Joins(steps[i], ids[i], ids[i + 1]);
      assert Adjacent(edges, ids[i], ids[i + 1]);
      i := i + 1;
    }
  }

  lemma StartSearching(edges: seq<Edge>, source: string)
    ensures Searching(edges, source, [Entry(source, [source], [])], {}, map[source := 0], 0)
    ensures Currents([Entry(source, [source], [])]) == {source}
  {
    assert Entry(source, [source], []) in [Entry(source, [source], [])];
  }

  lemma HeadIsShortest(edges: seq<Edge>, source: string, queue: seq<Entry>,
                       done: set<string>, depth: map<string, nat>, d: nat)
    requires Searching(edges, source, queue, done, depth, d)
    requires queue != [] && queue[0].current !in done
    requires depth.Keys == done + Currents(queue)
    ensures WalkBetween(edges, source, queue[0].current, queue[0].ids, queue[0].steps)
    ensures NoShorterWalk(edges, source, queue[0].current, |queue[0].steps|)
  {
    var target := queue[0].current;
    assert queue[0] in queue;
    forall ids, steps | WalkBetween(edges, source, target, ids, steps)
      ensures |queue[0].steps| <= |steps|
    {
      var i := WalkMeetsFrontier(edges, source, target, ids, steps, done, depth);
      assert ids[i] in Currents(queue);
      var k :| 0 <= k < |queue| && queue[k].current == ids[i];
      assert queue[k] in queue;
    }
  }

  lemma EnqueueKeepsSearching(edges: seq<Edge>, source: string, queue: seq<Entry>, done: set<string>,
                              depth: map<string, nat>, head: Entry, edge: Edge, neighbour: string)
    requires Searching(edges, source, queue, done, depth, |head.steps|)
    requires WalkBetween(edges, source, head.current, head.ids, head.steps)
    requires edge in edges && Joins(edge, head.current, neighbour) && neighbour !in depth
    ensures var entry := Entry(neighbour, head.ids + [neighbour], head.steps + [edge]);
            && Searching(edges, source, queue + [entry], done, depth[neighbour := |head.steps| + 1], |head.steps|)
            && Currents(queue + [entry]) == Currents(queue) + {neighbour}
  {
    var entry := Entry(neighbour, head.ids + [neighbour], head.steps + [edge]);
    var longer := queue + [entry];
    assert WalkBetween(edges, source, neighbour, entry.ids, entry.steps);
    forall q | q in longer ensures q in queue || q == entry {}
    assert Currents(longer) == Currents(queue) + {neighbour} by {
      assert entry in longer;
      forall q | q in queue ensures q in longer {}
    }
    assert neighbour in Endpoints(edges);
  }

  lemma ExhaustedMeansUnreachable(edges: seq<Edge>, source: string, target: string,
                                  done: set<string>, depth: map<string, nat>, d: nat)
    requires Searching(edges, source, [], done, depth, d)
    requires depth.Keys == done + Currents([]) && target !in done
    ensures !Connected(edges, source, target)
  {
    forall ids, steps | WalkBetween(edges, source, target, ids, steps)
      ensures false
    {
      var i := WalkMeetsFrontier(edges, source, target, ids, steps, done, depth);
    }
  }

  lemma CurrentsOfQueue(queue: seq<Entry>)
    requires queue != []
    ensures Currents(queue) == {queue[0].current} + Currents(queue[1..])
  {
    assert queue == [queue[0]] + queue[1..];
  }

  lemma LevelOfRest(queue: seq<Entry>, d: nat)
    requires queue != [] && QueueIsLevelled(queue, d)
    ensures QueueIsLevelled(queue[1..], |queue[0].steps|)
  {
  }

  lemma DepthsAreLevelled(edges: seq<Edge>, source: string, queue: seq<Entry>,
                          done: set<string>, depth: map<string, nat>, d: nat)
    requires Searching(edges, source, queue, done, depth, d) && queue != []
    requires depth.Keys == done + Currents(queue)
    ensures forall v :: v in depth ==> depth[v] <= |queue[0].steps| + 1
  {
    forall v | v in depth
      ensures depth[v] <= |queue[0].steps| + 1
    {
      if v !in done {
        var q :| q in queue && q.current == v;
      }
    }
  }

  /** Taking the first entry off the queue moves the search to that entry's level. */
  lemma DequeueKeepsSearching(edges: seq<Edge>, source: string, queue: seq<Entry>,
                              done: set<string>, depth: map<string, nat>, d: nat)
    requires Searching(edges, source, queue, done, depth, d) && queue != []
    requires depth.Keys == done + Currents(queue)
    ensures Expanding(edges, source, queue[0], [], queue[1..], done, depth)
  {
    CurrentsOfQueue(queue);
    LevelOfRest(queue, d);
    DepthsAreLevelled(edges, source, queue, done, depth, d);
    assert queue[0] in queue;
    assert Reached([], queue[0].current) == {};
  }

  function Neighbour(e: Edge, current: string): string {
    if e.source == current then e.target else e.source
  }

  ghost function Reached(incident: seq<Edge>, current: string): set<string> {
    set e | e in incident :: Neighbour(e, current)
  }

  /** All edges at `current` point to discovered nodes, so `current` is finished. */
  lemma FinishKeepsClosed(edges: seq<Edge>, current: string, incident: seq<Edge>,
                          done: set<string>, depth: map<string, nat>)
    requires forall e :: e in edges && (e.source == current || e.target == current) ==> e in incident
    requires Reached(incident, current) <= depth.Keys
    requires current in depth && forall v :: v in depth ==> depth[v] <= depth[current] + 1
    requires ClosedUnderNeighbours(edges, done, depth)
    ensures ClosedUnderNeighbours(edges, done + {current}, depth)
  {
    forall v | Adjacent(edges, current, v)
      ensures v in depth
    {
      var e :| e in edges && Joins(e, current, v);
      assert Neighbour(e, current) == v;
    }
  }

  /** While the edges `handled` of `head` have been followed: their far ends are discovered. */
  ghost predicate Expanding(edges: seq<Edge>, source: string, head: Entry, handled: seq<Edge>,
                            queue: seq<Entry>, done: set<string>, depth: map<string, nat>)
  {
    && Searching(edges, source, queue, done, depth, |head.steps|)
    && WalkBetween(edges, source, head.current, head.ids, head.steps)
    && head.current in depth && depth[head.current] == |head.steps|
    && (forall v :: v in depth ==> depth[v] <= |head.steps| + 1)
    && depth.Keys == done + {head.current} + Currents(queue)
    && Reached(handled, head.current) <= depth.Keys
  }

  lemma FollowEdge(edges: seq<Edge>, source: string, head: Entry, handled: seq<Edge>, edge: Edge,
                   queue: seq<Entry>, done: set<string>, depth: map<string, nat>)
    requires Expanding(edges, source, head, handled, queue, done, depth)
    requires edge in edges && (edge.source == head.current || edge.target == head.current)
    ensures var neighbour := Neighbour(edge, head.current);
            if neighbour in depth then Expanding(edges, source, head, handled + [edge], queue, done, depth)
            else Expanding(edges, source, head, handled + [edge],
                           queue + [Entry(neighbour, head.ids + [neighbour], head.steps + [edge])],
                           done, depth[neighbour := |head.steps| + 1])
  {
    var neighbour := Neighbour(edge, head.current);
    assert Reached(handled + [edge], head.current) <= Reached(handled, head.current) + {neighbour};
    if neighbour !in depth {
      EnqueueKeepsSearching(edges, source, queue, done, depth, head, edge, neighbour);
    }
  }

  lemma FinishHead(edges: seq<Edge>, source: string, head: Entry, incident: seq<Edge>,
                   queue: seq<Entry>, done: set<string>, depth: map<string, nat>)
    requires Expanding(edges, source, head, incident, queue, done, depth)
    requires forall e :: e in edges && (e.source == head.current || e.target == head.current) ==> e in incident
    ensures Searching(edges, source, queue, done + {head.current}, depth, |head.steps|)
    ensures depth.Keys == done + {head.current} + Currents(queue)
    ensures depth.Keys <= Endpoints(edges) + {source}
  {
    FinishKeepsClosed(edges, head.current, incident, done, depth);
  }

  /** The body of the search loop for one dequeued entry: queue every neighbour not seen before. */
  method Expand(ghost edges: seq<Edge>, incident: seq<Edge>, ghost source: string, head: Entry,
                queue0: seq<Entry>, visited0: set<string>, ghost done: set<string>, ghost depth0: map<string, nat>)
    returns (queue: seq<Entry>, visited: set<string>, ghost depth: map<string, nat>)
    requires forall e :: e in incident <==> e in edges && (e.source == head.current || e.target == head.current)
    requires Expanding(edges, source, head, [], queue0, done, depth0)
    requires visited0 == depth0.Keys
    ensures Expanding(edges, source, head, incident, queue, done, depth)
    ensures visited == depth.Keys
    ensures visited0 <= visited && (visited == visited0 ==> queue == queue0)
  {
    hide Expanding;
    queue, visited, depth := queue0, visited0, depth0;
    for i := 0 to |incident|
      invariant Expanding(edges, source, head, incident[..i], queue, done, depth)
      invariant visited == depth.Keys
      invariant visited0 <= visited && (visited == visited0 ==> queue == queue0)
    {
      var edge := incident[i];
      assert edge in incident;
      FollowEdge(edges, source, head, incident[..i], edge, queue, done, depth);
      assert incident[..i] + [edge] == incident[..i + 1];
      var neighbour := Neighbour(edge, head.current);
      if neighbour !in visited {
        visited := visited + {neighbour};
        queue := queue + [Entry(neighbour, head.ids + [neighbour], head.steps + [edge])];
        depth := depth[neighbour := |head.steps| + 1];
      }
    }
    assert incident[..|incident|] == incident;
  }

  class Graph {
    var nodes: map<string, Node>
    var edges: seq<Edge>
    var outgoingIndex: map<string, seq<Edge>>
    var incomingIndex: map<string, seq<Edge>>

    /** Both indexes equal the edge list filtered by endpoint, nodes are stored under
        their own id, and edge ids number the edges in insertion order. */
    ghost predicate Valid()
      reads this
    {
      && IndexesSources(outgoingIndex, edges)
      && IndexesTargets(incomingIndex, edges)
      && (forall id :: id in nodes ==> id in outgoingIndex && id in incomingIndex && nodes[id].id == id)
      && (forall i :: 0 <= i < |edges| ==> edges[i].id == EdgeId(i + 1))
    }

    constructor ()
      ensures Valid() && nodes == map[] && edges == []
    {
      nodes, edges, outgoingIndex, incomingIndex := map[], [], map[], map[];
    }

    method AddNode(node: Node)
      requires Valid()
      modifies this
      ensures Valid()
      ensures nodes == old(nodes)[node.id := node] && edges == old(edges)
    {
      nodes := nodes[node.id := node];
      outgoingIndex := outgoingIndex[node.id := GetOr(outgoingIndex, node.id, [])];
      incomingIndex := incomingIndex[node.id := GetOr(incomingIndex, node.id, [])];
    }

    method AddEdge(source: string, target: string, kind: EdgeType) returns (edge: Edge)
      requires Valid()
      modifies this
      ensures Valid()
      ensures nodes == old(nodes) && edges == old(edges) + [edge]
      ensures edge == Edge(EdgeId(|old(edges)| + 1), source, target, kind)
    {
      edge := Edge(EdgeId(|edges| + 1), source, target, kind);
      AppendKeepsIndex(edges, edge, outgoingIndex, incomingIndex);
      edges := edges + [edge];
      outgoingIndex := outgoingIndex[source := GetOr(outgoingIndex, source, []) + [edge]];
      incomingIndex := incomingIndex[target := GetOr(incomingIndex, target, []) + [edge]];
    }

    /** The builder's guard: an edge is added only between existing nodes. */
    method AddEdgeIfNodesExist(source: string, target: string, kind: EdgeType)
      requires Valid() && EndpointsAreNodes(nodes.Keys, edges)
      modifies this
      ensures Valid() && EndpointsAreNodes(nodes.Keys, edges)
      ensures nodes == old(nodes)
      ensures edges == old(edges) +
        if source in old(nodes) && target in old(nodes)
        then [Edge(EdgeId(|old(edges)| + 1), source, target, kind)] else []
    {
      if source !in nodes || target !in nodes {
        return;
      }
      var _ := AddEdge(source, target, kind);
    }

    /** All edges touching a node, read from the two indexes; a self-loop appears twice. */
    function EdgesFor(id: string): (r: seq<Edge>)
      requires Valid()
      reads this
      ensures forall e :: e in r <==> e in edges && (e.source == id || e.target == id)
      ensures multiset(r) == multiset(EdgesFrom(edges, id)) + multiset(EdgesInto(edges, id))
    {
      var both := GetOr(outgoingIndex, id, []) + GetOr(incomingIndex, id, []);
      SortKeepsMembers(both);
      FilterMembers(edges, id);
      SortById(both)
    }

    function Outgoing(id: string, kind: Option<EdgeType>): (r: seq<Edge>)
      requires Valid()
      reads this
      ensures r == SortById(Selected(EdgesFrom(edges, id), kind))
    {
      SortById(Selected(GetOr(outgoingIndex, id, []), kind))
    }

    function Incoming(id: string, kind: Option<EdgeType>): (r: seq<Edge>)
      requires Valid()
      reads this
      ensures r == SortById(Selected(EdgesInto(edges, id), kind))
    {
      SortById(Selected(GetOr(incomingIndex, id, []), kind))
    }

    /** Turns a route of ids into a route of nodes. */
    method Resolve(entry: Entry) returns (r: PathResult)
      requires Valid()
      requires IsWalk(edges, entry.ids, entry.steps) && entry.ids[0] in nodes
      ensures r.MissingNode? ==> !EndpointsAreNodes(nodes.Keys, edges)
      ensures r.GraphPath? ==>
        && r.found && r.edges == entry.steps && Ids(r.nodes) == entry.ids
        && forall n :: n in r.nodes ==> n.id in nodes && nodes[n.id] == n
    {
      var route: seq<Node> := [];
      for i := 0 to |entry.ids|
        invariant Ids(route) == entry.ids[..i]
        invariant forall n :: n in route ==> n.id in nodes && nodes[n.id] == n
      {
        if entry.ids[i] !in nodes {
          assert i > 0 && Joins(entry.steps[i - 1], entry.ids[i - 1], entry.ids[i]);
          return MissingNode;
        }
        route := route + [nodes[entry.ids[i]]];
      }
      r := GraphPath(route, entry.steps, true);
    }

    /** The breadth-first loop: an entry for a shortest walk, or none when no walk exists. */
    method Search(source: string, target: string) returns (hit: Option<Entry>)
      requires Valid()
      ensures hit.None? ==> !Connected(edges, source, target)
      ensures hit.Some? ==>
        && WalkBetween(edges, source, target, hit.value.ids, hit.value.steps)
        && NoShorterWalk(edges, source, target, |hit.value.steps|)
    {
      hide Searching, Expanding, WalkBetween, NoShorterWalk, Currents;
      StartSearching(edges, source);
      var queue := [Entry(source, [source], [])];
      var visited := {source};
      ghost var done: set<string> := {};
      ghost var depth: map<string, nat> := map[source := 0];
      ghost var d: nat := 0;
      while queue != []
        invariant Searching(edges, source, queue, done, depth, d)
        invariant visited == depth.Keys == done + Currents(queue)
        invariant target !in done
        decreases Endpoints(edges) + {source} - visited, |queue|
      {
        var head := queue[0];
        if head.current == target {
          HeadIsShortest(edges, source, queue, done, depth, d);
          return Some(head);
        }
        DequeueKeepsSearching(edges, source, queue, done, depth, d);
        var incident := EdgesFor(head.current);
        queue := queue[1..];
        queue, visited, depth := Expand(edges, incident, source, head, queue, visited, done, depth);
        FinishHead(edges, source, head, incident, queue, done, depth);
        d := |head.steps|;
        done := done + {head.current};
      }
      ExhaustedMeansUnreachable(edges, source, target, done, depth, d);
      hit := None;
    }

    /** Breadth-first search over the edges read without direction. */
    method ShortestPath(source: string, target: string) returns (r: PathResult)
      requires Valid()
      ensures Answers(nodes, edges, source, target, r)
    {
      if source !in nodes || target !in nodes {
        return GraphPath([], [], false);
      }
      var hit := Search(source, target);
      if hit.None? {
        return GraphPath([], [], false);
      }
      assert Connected(edges, source, target);
      r := Resolve(hit.value);
    }
  }

  /** The right answer to a path query. Found exactly when the ends are nodes joined by some walk, and
      then the route is a walk that no other walk undercuts; the lookup error needs an edge whose
      endpoint is not a node. */
  ghost predicate Answers(nodes: map<string, Node>, edges: seq<Edge>, source: string, target: string, r: PathResult) {
    && (r.MissingNode? ==>
          source in nodes && target in nodes && Connected(edges, source, target) && !EndpointsAreNodes(nodes.Keys, edges))
    && (r.GraphPath? ==> (r.found <==> source in nodes && target in nodes && Connected(edges, source, target)))
    && (r.GraphPath? && r.found ==>
          && WalkBetween(edges, source, target, Ids(r.nodes), r.edges)
          && (forall n :: n in r.nodes ==> n.id in nodes && nodes[n.id] == n)
          && NoShorterWalk(edges, source, target, |r.edges|))
    && (r.GraphPath? && !r.found ==> r.nodes == [] && r.edges == [])
  }
}
