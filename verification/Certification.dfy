/** Certification campaigns: item snapshots, decisions, cached counters and the status machine. */
module Certification {
  import opened Prelude
  import opened Text

  type UserId = nat
  type CampaignId = nat     // position in the campaign table
  type ItemId = nat         // position in the review item table

  datatype CampaignStatus = Draft | Active | Completed | Cancelled

  datatype Value = Approve | Revoke | Abstain

  datatype Campaign = Campaign(name: string, status: CampaignStatus, reviewer: UserId, totalItems: nat, completedItems: nat,
                               approvals: nat, revocations: nat, abstentions: nat)

  /** An access assignment row as the snapshot copies it. */
  datatype Assignment = Assignment(id: nat, user: UserId, application: string, entitlement: nat)

  datatype Item = Item(campaign: CampaignId, assignment: Assignment, group: Option<nat>, reviewer: UserId, reviewed: bool)

  datatype Decision = Decision(campaign: CampaignId, reviewer: UserId, value: Value)

  /** Review items are never deleted, and each has at most one decision row. */
  datatype Tables = Tables(campaigns: seq<Campaign>, items: seq<Item>, decisions: map<ItemId, Decision>)

  datatype Action =
    | Create(name: string, reviewer: UserId, reviewerExists: bool)
    | Start(campaign: CampaignId, assignments: seq<Assignment>)   // the live assignments at that moment
    | Decide(item: ItemId, value: Value, actor: UserId)
    | Complete(campaign: CampaignId)
    | Cancel(campaign: CampaignId)
    | Summarize(campaign: CampaignId)

  datatype Outcome = Done | NotFound | InvalidTransition | Incomplete | DuplicateName | MissingReviewer

  predicate ValidTransition(current: CampaignStatus, next: CampaignStatus) {
    match current
    case Draft => next.Active? || next.Cancelled?
    case Active => next.Completed? || next.Cancelled?
    case _ => false
  }

  // ----- Counting queries

  /** The row numbers below `n` that satisfy the filter, in id order. */
  function Select(n: nat, keep: nat -> bool): seq<nat> {
    if n == 0 then [] else Select(n - 1, keep) + if keep(n - 1) then [n - 1] else []
  }

  function Count(n: nat, keep: nat -> bool): nat {
    |Select(n, keep)|
  }

  predicate ItemOf(t: Tables, c: CampaignId, i: ItemId) {
    i < |t.items| && t.items[i].campaign == c
  }

  predicate DecisionOf(t: Tables, c: CampaignId, i: ItemId) {
    i in t.decisions && t.decisions[i].campaign == c
  }

  function OfCampaign(t: Tables, c: CampaignId): nat -> bool {
    (i: nat) => ItemOf(t, c, i)
  }

  function Reviewed(t: Tables, c: CampaignId): nat -> bool {
    (i: nat) => ItemOf(t, c, i) && t.items[i].reviewed
  }

  function Decided(t: Tables, c: CampaignId, v: Value): nat -> bool {
    (i: nat) => DecisionOf(t, c, i) && t.decisions[i].value == v
  }

  function TotalItems(t: Tables, c: CampaignId): nat {
    Count(|t.items|, OfCampaign(t, c))
  }

  function CompletedItems(t: Tables, c: CampaignId): nat {
    Count(|t.items|, Reviewed(t, c))
  }

  function Decisions(t: Tables, c: CampaignId, v: Value): nat {
    Count(|t.items|, Decided(t, c, v))
  }

  /** The campaign row with its five counters recomputed. */
  function Recounted(t: Tables, c: CampaignId): Campaign
    requires c < |t.campaigns|
  {
    t.campaigns[c].(totalItems := TotalItems(t, c), completedItems := CompletedItems(t, c),
                    approvals := Decisions(t, c, Approve), revocations := Decisions(t, c, Revoke), abstentions := Decisions(t, c, Abstain))
  }

  function Recount(t: Tables, c: CampaignId): Tables
    requires c < |t.campaigns|
  {
    t.(campaigns := t.campaigns[c := Recounted(t, c)])
  }

  function WithStatus(t: Tables, c: CampaignId, status: CampaignStatus): Tables
    requires c < |t.campaigns|
  {
    t.(campaigns := t.campaigns[c := t.campaigns[c].(status := status)])
  }

  function Snapshot(c: CampaignId, reviewer: UserId, assignments: seq<Assignment>): seq<Item> {
    seq(|assignments|, k requires 0 <= k < |assignments| => Item(c, assignments[k], None, reviewer, false))
  }

  function Generate(t: Tables, c: CampaignId, assignments: seq<Assignment>): Tables
    requires c < |t.campaigns|
  {
    if TotalItems(t, c) != 0 then t
    else Recount(t.(items := t.items + Snapshot(c, t.campaigns[c].reviewer, assignments)), c)
  }

  // ----- Steps

  predicate CampaignNameTaken(t: Tables, name: string) {
    exists c :: 0 <= c < |t.campaigns| && Lower(t.campaigns[c].name) == Lower(Strip(name))
  }

  function Step(t: Tables, a: Action): (Tables, Outcome) {
    match a
    case Create(name, reviewer, reviewerExists) =>
      if CampaignNameTaken(t, name) then (t, DuplicateName)
      else if !reviewerExists then (t, MissingReviewer)
      else (t.(campaigns := t.campaigns + [Campaign(Strip(name), Draft, reviewer, 0, 0, 0, 0, 0)]), Done)
    case Start(c, assignments) =>
      if c >= |t.campaigns| then (t, NotFound)
      else if !ValidTransition(t.campaigns[c].status, Active) then (t, InvalidTransition)
      else (WithStatus(Generate(t, c, assignments), c, Active), Done)
    case Complete(c) =>
      if c >= |t.campaigns| then (t, NotFound)
      else if !ValidTransition(t.campaigns[c].status, Completed) then (t, InvalidTransition)
      else if CompletedItems(t, c) < TotalItems(t, c) then (t, Incomplete)
      else (WithStatus(Recount(t, c), c, Completed), Done)
    case Cancel(c) =>
      if c >= |t.campaigns| then (t, NotFound)
      else if !ValidTransition(t.campaigns[c].status, Cancelled) then (t, InvalidTransition)
      else (WithStatus(t, c, Cancelled), Done)
    case Summarize(c) =>
      if c >= |t.campaigns| then (t, NotFound) else (Recount(t, c), Done)
    case Decide(i, value, actor) =>
      if i >= |t.items| || t.items[i].campaign >= |t.campaigns| then (t, NotFound)
      else if !t.campaigns[t.items[i].campaign].status.Active? then (t, InvalidTransition)
      else
        var c := t.items[i].campaign;
        (Recount(t.(items := t.items[i := t.items[i].(reviewed := true, reviewer := actor)],
                    decisions := t.decisions[i := Decision(c, actor, value)]), c), Done)
  }

  function Run(t: Tables, actions: seq<Action>): Tables {
    if actions == [] then t
    else
      var n := |actions| - 1;
      Step(Run(t, actions[..n]), actions[n]).0
  }

  const EMPTY: Tables := Tables([], [], map[])

  // ----- Lemmas about counting

  lemma {:induction false} SelectSame(n: nat, p: nat -> bool, q: nat -> bool)
    requires forall i: nat :: i < n ==> p(i) == q(i)
    ensures Select(n, p) == Select(n, q)
  {
    if n == 0 {
    } else {
      SelectSame(n - 1, p, q);
    }
  }

  /** A filter split into three exclusive cases counts as the sum of the cases. */
  lemma {:induction false} CountSplits(n: nat, p: nat -> bool, a: nat -> bool, b: nat -> bool, c: nat -> bool)
    requires forall i: nat :: i < n ==> p(i) == (a(i) || b(i) || c(i)) && !(a(i) && b(i)) && !(a(i) && c(i)) && !(b(i) && c(i))
    ensures Count(n, p) == Count(n, a) + Count(n, b) + Count(n, c)
  {
    if n == 0 {
    } else {
      CountSplits(n - 1, p, a, b, c);
    }
  }

  lemma {:induction false} CountMonotone(n: nat, p: nat -> bool, q: nat -> bool)
    requires forall i: nat :: i < n && p(i) ==> q(i)
    ensures Count(n, p) <= Count(n, q)
    ensures Count(n, p) == Count(n, q) ==> forall i :: 0 <= i < n ==> p(i) == q(i)
  {
    if n == 0 {
    } else {
      CountMonotone(n - 1, p, q);
    }
  }

  lemma {:induction false} SelectMembers(n: nat, p: nat -> bool)
    ensures forall i: nat :: i in Select(n, p) <==> i < n && p(i)
    ensures forall j, k :: 0 <= j < k < |Select(n, p)| ==> Select(n, p)[j] < Select(n, p)[k]
  {
    if n == 0 {
    } else {
      SelectMembers(n - 1, p);
      var fewer := Select(n - 1, p);
      forall j | 0 <= j < |fewer| ensures fewer[j] < n - 1 {
        assert fewer[j] in fewer;
      }
    }
  }

  lemma {:induction false} SelectLonger(n: nat, more: nat, p: nat -> bool)
    requires forall i: nat :: n <= i < n + more ==> !p(i)
    ensures Select(n + more, p) == Select(n, p)
  {
    if more == 0 {
    } else {
      SelectLonger(n, more - 1, p);
    }
  }

  lemma {:induction false} SelectAll(n: nat, more: nat, p: nat -> bool)
    requires forall i: nat :: n <= i < n + more ==> p(i)
    ensures |Select(n + more, p)| == |Select(n, p)| + more
  {
    if more == 0 {
    } else {
      SelectAll(n, more - 1, p);
    }
  }

  lemma NoneSelected(n: nat, p: nat -> bool)
    requires forall i: nat :: i < n ==> !p(i)
    ensures Select(n, p) == []
  {
    SelectLonger(0, n, p);
  }

  /** A campaign without items has all counts zero. */
  lemma NoItemsNoCounts(t: Tables, c: CampaignId)
    requires forall i: nat :: !ItemOf(t, c, i) && (i < |t.items| ==> !DecisionOf(t, c, i))
    ensures TotalItems(t, c) == CompletedItems(t, c) == 0 && forall v :: Decisions(t, c, v) == 0
  {
    NoneSelected(|t.items|, OfCampaign(t, c));
    NoneSelected(|t.items|, Reviewed(t, c));
    forall v ensures Decisions(t, c, v) == 0 {
      NoneSelected(|t.items|, Decided(t, c, v));
    }
  }

  /** All items counted as completed means every item of the campaign is reviewed. */
  lemma AllReviewed(t: Tables, c: CampaignId)
    requires CompletedItems(t, c) >= TotalItems(t, c)
    ensures forall i: nat :: ItemOf(t, c, i) ==> t.items[i].reviewed
  {
    CountMonotone(|t.items|, Reviewed(t, c), OfCampaign(t, c));
    forall i: nat | ItemOf(t, c, i) ensures t.items[i].reviewed {
      assert Reviewed(t, c)(i) == OfCampaign(t, c)(i);
    }
  }

  // ----- Run invariants

  /** Decisions and reviewed items correspond one to one, within the same campaign. */
  ghost predicate DecisionsMatch(t: Tables) {
    && (forall i: nat :: i in t.decisions <==> i < |t.items| && t.items[i].reviewed)
    && (forall i :: i in t.decisions ==> t.decisions[i].campaign == t.items[i].campaign)
  }

  ghost predicate ItemsBelong(t: Tables) {
    forall i :: 0 <= i < |t.items| ==> t.items[i].campaign < |t.campaigns|
  }

  /** A draft campaign has no items yet, and a completed one has none left to review. */
  ghost predicate StatusFits(t: Tables) {
    forall i :: 0 <= i < |t.items| && t.items[i].campaign < |t.campaigns| ==>
      && !t.campaigns[t.items[i].campaign].status.Draft?
      && (t.campaigns[t.items[i].campaign].status.Completed? ==> t.items[i].reviewed)
  }

  /** The cached counters are what the rows say. */
  ghost predicate CountersFresh(t: Tables) {
    forall c {:trigger Recounted(t, c)} :: 0 <= c < |t.campaigns| ==> t.campaigns[c] == Recounted(t, c)
  }

  ghost predicate Inv(t: Tables) {
    DecisionsMatch(t) && ItemsBelong(t) && StatusFits(t) && CountersFresh(t)
  }

  /** Counts of a campaign depend only on its own items and decisions. */
  lemma CountsUnaffected(t: Tables, t': Tables, c: CampaignId)
    requires |t.items| == |t'.items|
    requires forall i: nat :: i < |t.items| ==> (ItemOf(t, c, i) <==> ItemOf(t', c, i)) && (DecisionOf(t, c, i) <==> DecisionOf(t', c, i))
    requires forall i: nat :: ItemOf(t, c, i) ==> t.items[i].reviewed == t'.items[i].reviewed
    requires forall i: nat :: i < |t.items| && DecisionOf(t, c, i) && DecisionOf(t', c, i) ==> t.decisions[i].value == t'.decisions[i].value
    ensures TotalItems(t, c) == TotalItems(t', c) && CompletedItems(t, c) == CompletedItems(t', c)
    ensures forall v :: Decisions(t, c, v) == Decisions(t', c, v)
  {
    var n := |t.items|;
    SelectSame(n, OfCampaign(t, c), OfCampaign(t', c));
    SelectSame(n, Reviewed(t, c), Reviewed(t', c));
    forall v ensures Decisions(t, c, v) == Decisions(t', c, v) {
      SelectSame(n, Decided(t, c, v), Decided(t', c, v));
    }
  }

  /** What new rows of another campaign do to a campaign's counts: nothing. */
  lemma CountsIgnoreNewItems(t: Tables, t': Tables, c: CampaignId)
    requires |t.items| <= |t'.items| && t'.items[..|t.items|] == t.items && t'.decisions == t.decisions
    requires forall i :: |t.items| <= i < |t'.items| ==> t'.items[i].campaign != c
    requires forall i :: i in t.decisions ==> i < |t.items|
    ensures TotalItems(t, c) == TotalItems(t', c) && CompletedItems(t, c) == CompletedItems(t', c)
    ensures forall v :: Decisions(t, c, v) == Decisions(t', c, v)
  {
    var n, more := |t.items|, |t'.items| - |t.items|;
    forall i | 0 <= i < n ensures t.items[i] == t'.items[i] {
      assert t'.items[..n][i] == t'.items[i];
    }
    SelectSame(n, OfCampaign(t, c), OfCampaign(t', c));
    SelectSame(n, Reviewed(t, c), Reviewed(t', c));
    SelectLonger(n, more, OfCampaign(t', c));
    SelectLonger(n, more, Reviewed(t', c));
    forall v ensures Decisions(t, c, v) == Decisions(t', c, v) {
      SelectSame(n, Decided(t, c, v), Decided(t', c, v));
      SelectLonger(n, more, Decided(t', c, v));
    }
  }

  lemma RecountFreshens(t: Tables, c: CampaignId)
    requires c < |t.campaigns|
    requires forall d :: 0 <= d < |t.campaigns| && d != c ==> t.campaigns[d] == Recounted(t, d)
    ensures CountersFresh(Recount(t, c))
  {
    hide TotalItems, CompletedItems, Decisions;
    var t' := Recount(t, c);
    forall d | 0 <= d < |t'.campaigns|
      ensures t'.campaigns[d] == Recounted(t', d)
    {
      CountsUnaffected(t, t', d);
    }
  }

  lemma StatusKeepsCounters(t: Tables, c: CampaignId, status: CampaignStatus)
    requires c < |t.campaigns| && CountersFresh(t)
    ensures CountersFresh(WithStatus(t, c, status))
  {
    hide TotalItems, CompletedItems, Decisions;
    var t' := WithStatus(t, c, status);
    forall d | 0 <= d < |t'.campaigns|
      ensures t'.campaigns[d] == Recounted(t', d)
    {
      assert t.campaigns[d] == Recounted(t, d);
      CountsUnaffected(t, t', d);
    }
  }

  lemma StartKeepsInv(t: Tables, c: CampaignId, assignments: seq<Assignment>)
    requires Inv(t) && c < |t.campaigns| && t.campaigns[c].status.Draft?
    ensures Inv(WithStatus(Generate(t, c, assignments), c, Active))
    ensures TotalItems(t, c) == 0
  {
    hide TotalItems, CompletedItems, Decisions;
    DraftHasNoItems(t, c);
    var grown := t.(items := t.items + Snapshot(c, t.campaigns[c].reviewer, assignments));
    forall d | 0 <= d < |t.campaigns| && d != c
      ensures grown.campaigns[d] == Recounted(grown, d)
    {
      assert t.campaigns[d] == Recounted(t, d);
      CountsIgnoreNewItems(t, grown, d);
    }
    RecountFreshens(grown, c);
    StatusKeepsCounters(Recount(grown, c), c, Active);
  }

  lemma DraftHasNoItems(t: Tables, c: CampaignId)
    requires Inv(t) && c < |t.campaigns| && t.campaigns[c].status.Draft?
    ensures TotalItems(t, c) == 0 && forall i: nat :: !ItemOf(t, c, i)
  {
    hide TotalItems, CompletedItems, Decisions;
    NoItemsNoCounts(t, c);
  }

  lemma DecideKeepsInv(t: Tables, i: ItemId, value: Value, actor: UserId)
    requires Inv(t) && i < |t.items| && t.campaigns[t.items[i].campaign].status.Active?
    ensures Inv(Step(t, Decide(i, value, actor)).0)
  {
    hide TotalItems, CompletedItems, Decisions;
    var c := t.items[i].campaign;
    var t' := t.(items := t.items[i := t.items[i].(reviewed := true, reviewer := actor)],
                 decisions := t.decisions[i := Decision(c, actor, value)]);
    forall d | 0 <= d < |t.campaigns| && d != c
      ensures t'.campaigns[d] == Recounted(t', d)
    {
      assert t.campaigns[d] == Recounted(t, d);
      CountsUnaffected(t, t', d);
    }
    RecountFreshens(t', c);
  }

  lemma CompleteKeepsInv(t: Tables, c: CampaignId)
    requires Inv(t) && c < |t.campaigns| && t.campaigns[c].status.Active? && CompletedItems(t, c) >= TotalItems(t, c)
    ensures Inv(WithStatus(Recount(t, c), c, Completed))
  {
    hide TotalItems, CompletedItems, Decisions;
    AllReviewed(t, c);
    RecountFreshens(t, c);
    StatusKeepsCounters(Recount(t, c), c, Completed);
  }

  lemma StepKeepsInv(t: Tables, a: Action)
    requires Inv(t)
    ensures Inv(Step(t, a).0)
  {
    hide TotalItems, CompletedItems, Decisions, Recounted;
    match a
    case Create(name, reviewer, reviewerExists) =>
      CreateKeepsInv(t, name, reviewer, reviewerExists);
    case Start(c, assignments) =>
      if c < |t.campaigns| && t.campaigns[c].status.Draft? {
        StartKeepsInv(t, c, assignments);
      }
    case Complete(c) =>
      if c < |t.campaigns| && t.campaigns[c].status.Active? && CompletedItems(t, c) >= TotalItems(t, c) {
        CompleteKeepsInv(t, c);
      }
    case Cancel(c) =>
      if c < |t.campaigns| {
        StatusKeepsCounters(t, c, Cancelled);
      }
    case Summarize(c) =>
      if c < |t.campaigns| {
        RecountFreshens(t, c);
      }
    case Decide(i, value, actor) =>
      if i < |t.items| && t.campaigns[t.items[i].campaign].status.Active? {
        DecideKeepsInv(t, i, value, actor);
      }
  }

  lemma CreateKeepsInv(t: Tables, name: string, reviewer: UserId, reviewerExists: bool)
    requires Inv(t)
    ensures Inv(Step(t, Create(name, reviewer, reviewerExists)).0)
  {
    hide TotalItems, CompletedItems, Decisions;
    var (t', outcome) := Step(t, Create(name, reviewer, reviewerExists));
    var n := |t.campaigns|;
    if outcome == Done {
      forall d | 0 <= d < n
        ensures t'.campaigns[d] == Recounted(t', d)
      {
        assert t.campaigns[d] == Recounted(t, d);
        CountsUnaffected(t, t', d);
      }
      NoItemsNoCounts(t', n);
    }
  }

  /** In every reachable state the counters agree with the rows and the rows with each other. */
  lemma {:induction false} RunKeepsInv(actions: seq<Action>)
    ensures Inv(Run(EMPTY, actions))
    decreases |actions|
  {
    hide Inv, Step;
    if actions != [] {
      var n := |actions| - 1;
      RunKeepsInv(actions[..n]);
      StepKeepsInv(Run(EMPTY, actions[..n]), actions[n]);
    } else {
      EmptyInv();
    }
  }

  lemma EmptyInv()
    ensures Inv(EMPTY)
  {
  }

  /** Campaign names are stripped and differ ignoring case. */
  ghost predicate NamesDiffer(t: Tables) {
    && (forall c :: 0 <= c < |t.campaigns| ==> Stripped(t.campaigns[c].name))
    && (forall c, d :: 0 <= c < d < |t.campaigns| ==> Lower(t.campaigns[c].name) != Lower(t.campaigns[d].name))
  }

  /** Only a create touches the names. */
  lemma StepKeepsNames(t: Tables, a: Action)
    requires NamesDiffer(t)
    ensures NamesDiffer(Step(t, a).0)
  {
    hide TotalItems, CompletedItems, Decisions, Lower, Strip, Stripped;
    if a.Create? {
      StripIsStripped(a.name);
    } else {
      var t' := Step(t, a).0;
      assert |t'.campaigns| == |t.campaigns| && forall c :: 0 <= c < |t.campaigns| ==> t'.campaigns[c].name == t.campaigns[c].name;
    }
  }

  lemma {:induction false} RunKeepsNames(actions: seq<Action>)
    ensures NamesDiffer(Run(EMPTY, actions))
    decreases |actions|
  {
    hide Step, NamesDiffer;
    if actions == [] {
      NoNames();
    } else {
      var n := |actions| - 1;
      RunKeepsNames(actions[..n]);
      StepKeepsNames(Run(EMPTY, actions[..n]), actions[n]);
    }
  }

  lemma NoNames()
    ensures NamesDiffer(EMPTY)
  {
  }

  // ----- What the invariant says about a campaign row

  lemma CountsAgree(t: Tables, c: CampaignId)
    requires DecisionsMatch(t)
    ensures CompletedItems(t, c) == Decisions(t, c, Approve) + Decisions(t, c, Revoke) + Decisions(t, c, Abstain)
    ensures CompletedItems(t, c) <= TotalItems(t, c)
    ensures (forall i: nat :: ItemOf(t, c, i) ==> t.items[i].reviewed) ==> CompletedItems(t, c) == TotalItems(t, c)
  {
    hide Count;
    var n := |t.items|;
    CountSplits(n, Reviewed(t, c), Decided(t, c, Approve), Decided(t, c, Revoke), Decided(t, c, Abstain));
    CountMonotone(n, Reviewed(t, c), OfCampaign(t, c));
    if forall i: nat :: ItemOf(t, c, i) ==> t.items[i].reviewed {
      CountMonotone(n, OfCampaign(t, c), Reviewed(t, c));
    }
  }

  /** completed = approvals + revocations + abstentions <= total, and a completed campaign has every
      item decided. */
  lemma CountersAgree(t: Tables, c: CampaignId)
    requires Inv(t) && c < |t.campaigns|
    ensures var row := t.campaigns[c];
            && row.completedItems == row.approvals + row.revocations + row.abstentions <= row.totalItems
            && (row.status.Completed? ==> row.completedItems == row.totalItems && forall i: nat :: ItemOf(t, c, i) ==> i in t.decisions)
  {
    hide TotalItems, CompletedItems, Decisions;
    CountsAgree(t, c);
    assert t.campaigns[c] == Recounted(t, c);
  }

  /** Starting takes one item per assignment present, in order, and none is reviewed. */
  lemma StartSnapshots(t: Tables, c: CampaignId, assignments: seq<Assignment>)
    requires Inv(t) && c < |t.campaigns|
    requires Step(t, Start(c, assignments)).1 == Done
    ensures var t' := Step(t, Start(c, assignments)).0;
            && t'.items == t.items + Snapshot(c, t.campaigns[c].reviewer, assignments)
            && t'.campaigns[c].totalItems == |assignments| && t'.campaigns[c].completedItems == 0
            && forall i: nat :: ItemOf(t', c, i) <==> |t.items| <= i < |t.items| + |assignments|
  {
    hide TotalItems, CompletedItems, Decisions, Inv;
    DraftHasNoItems(t, c);
    SnapshotCounts(t, c, assignments);
    var grown := t.(items := t.items + Snapshot(c, t.campaigns[c].reviewer, assignments));
    var t' := Step(t, Start(c, assignments)).0;
    forall i: nat ensures ItemOf(t', c, i) <==> ItemOf(grown, c, i) {}
  }

  lemma SnapshotCounts(t: Tables, c: CampaignId, assignments: seq<Assignment>)
    requires c < |t.campaigns| && forall i: nat :: !ItemOf(t, c, i)
    ensures var t' := t.(items := t.items + Snapshot(c, t.campaigns[c].reviewer, assignments));
            && TotalItems(t', c) == |assignments| && CompletedItems(t', c) == 0
            && forall i: nat :: ItemOf(t', c, i) <==> |t.items| <= i < |t.items| + |assignments|
  {
    var t' := t.(items := t.items + Snapshot(c, t.campaigns[c].reviewer, assignments));
    var n := |t.items|;
    forall i: nat | i < n ensures !ItemOf(t', c, i) {
      assert !ItemOf(t, c, i);
    }
    NoneSelected(n, OfCampaign(t', c));
    SelectAll(n, |assignments|, OfCampaign(t', c));
    NoneSelected(|t'.items|, Reviewed(t', c));
  }

  /** A closed campaign is frozen: its status, its items and its decisions never change again. */
  ghost predicate Frozen(t: Tables, t': Tables, c: CampaignId)
    requires c < |t.campaigns|
  {
    && c < |t'.campaigns| && t'.campaigns[c] == t.campaigns[c]
    && |t.items| <= |t'.items|
    && (forall i: nat :: ItemOf(t', c, i) <==> ItemOf(t, c, i))
    && (forall i: nat :: ItemOf(t, c, i) ==> t'.items[i] == t.items[i] && Lookup(t'.decisions, i) == Lookup(t.decisions, i))
  }

  predicate Closed(t: Tables, c: CampaignId) {
    c < |t.campaigns| && (t.campaigns[c].status.Completed? || t.campaigns[c].status.Cancelled?)
  }

  lemma StartFreezes(t: Tables, d: CampaignId, assignments: seq<Assignment>, c: CampaignId)
    requires Inv(t) && Closed(t, c) && d < |t.campaigns| && t.campaigns[d].status.Draft?
    ensures Frozen(t, Step(t, Start(d, assignments)).0, c)
  {
    hide TotalItems, CompletedItems, Decisions, CountersFresh, DecisionsMatch;
    DraftHasNoItems(t, d);
    var t' := Step(t, Start(d, assignments)).0;
    assert t'.items == t.items + Snapshot(d, t.campaigns[d].reviewer, assignments);
  }

  lemma DecideFreezes(t: Tables, i: ItemId, value: Value, actor: UserId, c: CampaignId)
    requires Inv(t) && Closed(t, c)
    ensures Frozen(t, Step(t, Decide(i, value, actor)).0, c)
  {
    hide Recounted, Inv;
  }

  lemma StepFreezes(t: Tables, a: Action, c: CampaignId)
    requires Inv(t) && Closed(t, c)
    ensures Frozen(t, Step(t, a).0, c)
  {
    hide TotalItems, CompletedItems, Decisions, DecisionsMatch, ItemsBelong, StatusFits;
    match a
    case Start(d, assignments) =>
      if d < |t.campaigns| && t.campaigns[d].status.Draft? {
        StartFreezes(t, d, assignments, c);
      }
    case Decide(i, value, actor) =>
      DecideFreezes(t, i, value, actor, c);
    case Summarize(d) =>
      if d == c {
        assert Recounted(t, c) == t.campaigns[c];
      }
    case _ =>
  }

  lemma {:induction false} ClosedCampaignsAreFrozen(t: Tables, actions: seq<Action>, c: CampaignId)
    requires Inv(t) && Closed(t, c)
    ensures Inv(Run(t, actions)) && Frozen(t, Run(t, actions), c)
    decreases |actions|
  {
    hide Inv, Step;
    if actions == [] {
    } else {
      var n := |actions| - 1;
      ClosedCampaignsAreFrozen(t, actions[..n], c);
      StepFreezes(Run(t, actions[..n]), actions[n], c);
      StepKeepsInv(Run(t, actions[..n]), actions[n]);
    }
  }

  // ----- The same for every reachable state

  lemma ReachedCountersAgree(actions: seq<Action>, c: CampaignId)
    requires c < |Run(EMPTY, actions).campaigns|
    ensures var t := Run(EMPTY, actions);
            var row := t.campaigns[c];
            && row.completedItems == row.approvals + row.revocations + row.abstentions <= row.totalItems
            && (row.status.Completed? ==> row.completedItems == row.totalItems && forall i: nat :: ItemOf(t, c, i) ==> i in t.decisions)
  {
    hide Run, Inv;
    RunKeepsInv(actions);
    CountersAgree(Run(EMPTY, actions), c);
  }

  lemma ReachedStartSnapshots(actions: seq<Action>, c: CampaignId, assignments: seq<Assignment>)
    requires Step(Run(EMPTY, actions), Start(c, assignments)).1 == Done
    ensures var t := Run(EMPTY, actions);
            var t' := Step(t, Start(c, assignments)).0;
            && c < |t.campaigns| && t'.items == t.items + Snapshot(c, t.campaigns[c].reviewer, assignments)
            && t'.campaigns[c].totalItems == |assignments| && t'.campaigns[c].completedItems == 0
            && (forall i: nat :: ItemOf(t', c, i) <==> |t.items| <= i < |t.items| + |assignments|)
            && forall k :: 0 <= k < |assignments| ==>
                 t'.items[|t.items| + k] == Item(c, assignments[k], None, t.campaigns[c].reviewer, false)
  {
    hide Run, Inv, Generate;
    RunKeepsInv(actions);
    StartSnapshots(Run(EMPTY, actions), c, assignments);
  }

  lemma ReachedClosedCampaignsAreFrozen(actions: seq<Action>, more: seq<Action>, c: CampaignId)
    requires Closed(Run(EMPTY, actions), c)
    ensures Frozen(Run(EMPTY, actions), Run(Run(EMPTY, actions), more), c)
  {
    hide Run, Inv, Frozen;
    RunKeepsInv(actions);
    ClosedCampaignsAreFrozen(Run(EMPTY, actions), more, c);
  }

  // ----- Outcomes and counters over the rows themselves

  /** The queries count rows: their results are the sizes of the sets of matching rows. */
  lemma {:induction false} CountMeaning(n: nat, keep: nat -> bool)
    ensures Count(n, keep) == |set i: nat | i < n && keep(i)|
  {
    if n == 0 {
      assert (set i: nat | i < 0 && keep(i)) == {};
    } else {
      CountMeaning(n - 1, keep);
      assert (set i: nat | i < n && keep(i)) == (set i: nat | i < n - 1 && keep(i)) + if keep(n - 1) then {n - 1} else {};
    }
  }

  lemma SameCount(n: nat, keep: nat -> bool, rows: set<nat>)
    requires forall i: nat :: i in rows <==> i < n && keep(i)
    ensures Count(n, keep) == |rows|
  {
    CountMeaning(n, keep);
    assert rows == set i: nat | i < n && keep(i);
  }

  ghost function RowsDecided(t: Tables, c: CampaignId, v: Value): set<ItemId> {
    set i | i in t.decisions && t.decisions[i].campaign == c && t.decisions[i].value == v
  }

  /** In every reachable state the cached counters of a campaign are the numbers of its item rows, of its
      reviewed item rows, and of its decision rows of each value. */
  lemma ReachedCountersCount(actions: seq<Action>, c: CampaignId)
    requires c < |Run(EMPTY, actions).campaigns|
    ensures var t := Run(EMPTY, actions);
            var row := t.campaigns[c];
            && row.totalItems == |set i: nat | i < |t.items| && t.items[i].campaign == c|
            && row.completedItems == |set i: nat | i < |t.items| && t.items[i].campaign == c && t.items[i].reviewed|
            && row.approvals == |RowsDecided(t, c, Approve)| && row.revocations == |RowsDecided(t, c, Revoke)|
            && row.abstentions == |RowsDecided(t, c, Abstain)|
  {
    hide Run, Count;
    RunKeepsInv(actions);
    var t := Run(EMPTY, actions);
    assert t.campaigns[c] == Recounted(t, c);
    SameCount(|t.items|, OfCampaign(t, c), set i: nat | i < |t.items| && t.items[i].campaign == c);
    SameCount(|t.items|, Reviewed(t, c), set i: nat | i < |t.items| && t.items[i].campaign == c && t.items[i].reviewed);
    forall v ensures Decisions(t, c, v) == |RowsDecided(t, c, v)| {
      SameCount(|t.items|, Decided(t, c, v), RowsDecided(t, c, v));
    }
  }

  /** In every reachable state: which calls succeed, and the status they leave. */
  lemma OutcomeMeaning(actions: seq<Action>, c: CampaignId, assignments: seq<Assignment>)
    ensures var t := Run(EMPTY, actions);
            var (started, r1) := Step(t, Start(c, assignments));
            var (completed, r2) := Step(t, Complete(c));
            var (cancelled, r3) := Step(t, Cancel(c));
            && (r1 == Done <==> c < |t.campaigns| && t.campaigns[c].status == Draft)
            && (r2 == Done <==> c < |t.campaigns| && t.campaigns[c].status == Active
                                && forall i: nat :: i < |t.items| && t.items[i].campaign == c ==> t.items[i].reviewed)
            && (r3 == Done <==> c < |t.campaigns| && (t.campaigns[c].status == Draft || t.campaigns[c].status == Active))
            && (r1 == Done ==> c < |started.campaigns| && started.campaigns[c].status == Active)
            && (r2 == Done ==> c < |completed.campaigns| && completed.campaigns[c].status == Completed)
            && (r3 == Done ==> cancelled == t.(campaigns := t.campaigns[c := t.campaigns[c].(status := Cancelled)]))
            && (r1 != Done ==> started == t) && (r2 != Done ==> completed == t) && (r3 != Done ==> cancelled == t)
  {
    hide Run, TotalItems, CompletedItems, Decisions, Inv;
    var t := Run(EMPTY, actions);
    RunKeepsInv(actions);
    if c < |t.campaigns| {
      CompleteIffReviewed(t, c);
    }
  }

  lemma CompleteIffReviewed(t: Tables, c: CampaignId)
    requires Inv(t) && c < |t.campaigns|
    ensures CompletedItems(t, c) >= TotalItems(t, c) <==> forall i: nat :: i < |t.items| && t.items[i].campaign == c ==> t.items[i].reviewed
  {
    hide TotalItems, CompletedItems, Decisions;
    CountsAgree(t, c);
    if CompletedItems(t, c) >= TotalItems(t, c) {
      AllReviewed(t, c);
      forall i: nat | i < |t.items| && t.items[i].campaign == c ensures t.items[i].reviewed {
        assert ItemOf(t, c, i);
      }
    }
  }

  /** A campaign is created exactly when no other has the name, ignoring case and surrounding space, and
      the reviewer exists; it is then the last, a draft with the stripped name and nothing counted. */
  lemma CreateMeaning(t: Tables, name: string, reviewer: UserId, reviewerExists: bool)
    ensures var (t', r) := Step(t, Create(name, reviewer, reviewerExists));
            && (r == Done <==> reviewerExists && forall c :: 0 <= c < |t.campaigns| ==> Lower(t.campaigns[c].name) != Lower(Strip(name)))
            && (r == Done ==> t' == t.(campaigns := t.campaigns + [Campaign(Strip(name), Draft, reviewer, 0, 0, 0, 0, 0)]))
            && (r != Done ==> t' == t)
  {
    hide Lower, Strip;
  }

  /** In every reachable state a decision is accepted exactly for an item of an active campaign; it is
      then the item's decision, and the item is reviewed by the actor. */
  lemma DecisionMeaning(actions: seq<Action>, i: ItemId, value: Value, actor: UserId)
    ensures var t := Run(EMPTY, actions);
            var (t', r) := Step(t, Decide(i, value, actor));
            && (r == Done <==> i < |t.items| && t.items[i].campaign < |t.campaigns| && t.campaigns[t.items[i].campaign].status == Active)
            && (r == Done ==>
                  && t'.decisions == t.decisions[i := Decision(t.items[i].campaign, actor, value)]
                  && t'.items == t.items[i := t.items[i].(reviewed := true, reviewer := actor)])
            && (r != Done ==> t' == t)
  {
    hide Run, TotalItems, CompletedItems, Decisions;
  }
}
