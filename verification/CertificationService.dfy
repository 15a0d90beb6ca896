/** The campaign and review services as they update their tables. */
module CertificationService {
  import opened Prelude
  import opened Text
  import opened Certification

  class Service {
    var campaigns: seq<Campaign>
    var items: seq<Item>
    var decisions: map<ItemId, Decision>

    function State(): Tables
      reads this
    {
      Tables(campaigns, items, decisions)
    }

    /** What every public call finds and leaves: counters equal to the rows, decisions and reviewed items
        one to one, no draft with items, no completed campaign with anything left to review, and
        campaign names that differ ignoring case. */
    ghost predicate Valid()
      reads this
    {
      Inv(State()) && NamesDiffer(State())
    }

    constructor ()
      ensures Valid() && State() == EMPTY
    {
      campaigns, items, decisions := [], [], map[];
      new;
      EmptyInv();
      NoNames();
    }

    method CreateCampaign(name: string, reviewer: UserId, reviewerExists: bool) returns (outcome: Outcome)
      requires Valid()
      modifies this
      ensures Valid()
      ensures (State(), outcome) == Step(old(State()), Create(name, reviewer, reviewerExists))
    {
      hide Inv, NamesDiffer;
      StepKeepsValid(State(), Create(name, reviewer, reviewerExists));
      for c := 0 to |campaigns|
        invariant forall d :: 0 <= d < c ==> Lower(campaigns[d].name) != Lower(Strip(name))
        invariant State() == old(State())
      {
        if Lower(campaigns[c].name) == Lower(Strip(name)) {
          return DuplicateName;
        }
      }
      if !reviewerExists {
        return MissingReviewer;
      }
      campaigns := campaigns + [Campaign(Strip(name), Draft, reviewer, 0, 0, 0, 0, 0)];
      outcome := Done;
    }

    /** The first two count queries: the items of a campaign, and those completed. */
    method CountItems(c: CampaignId) returns (total: nat, completed: nat)
      ensures total == TotalItems(State(), c) && completed == CompletedItems(State(), c)
    {
      ghost var t := State();
      total, completed := 0, 0;
      for i := 0 to |items|
        invariant total == Count(i, OfCampaign(t, c)) && completed == Count(i, Reviewed(t, c))
      {
        if items[i].campaign == c {
          total := total + 1;
          if items[i].reviewed {
            completed := completed + 1;
          }
        }
      }
    }

    /** The third: the decisions of a campaign grouped by value; values nobody chose are absent. */
    method GroupDecisions(c: CampaignId) returns (counts: map<Value, nat>)
      ensures forall v :: GetOr(counts, v, 0) == Decisions(State(), c, v)
      ensures forall v :: v in counts <==> Decisions(State(), c, v) > 0
    {
      ghost var t := State();
      counts := map[];
      for i := 0 to |items|
        invariant forall v :: GetOr(counts, v, 0) == Count(i, Decided(t, c, v))
        invariant forall v :: v in counts ==> counts[v] > 0
      {
        if i in decisions && decisions[i].campaign == c {
          var v := decisions[i].value;
          counts := counts[v := GetOr(counts, v, 0) + 1];
        }
      }
    }

    /** Recounts from the rows and stores the five counters; a value without decisions counts zero. */
    method RecalculateCampaignCounts(c: CampaignId)
      requires c < |campaigns|
      modifies this`campaigns
      ensures State() == Recount(old(State()), c)
    {
      hide TotalItems, CompletedItems, Decisions;
      var total, completed := CountItems(c);
      var counts := GroupDecisions(c);
      var row := campaigns[c];
      row := row.(totalItems := total);
      row := row.(completedItems := completed);
      row := row.(approvals := GetOr(counts, Approve, 0));
      row := row.(revocations := GetOr(counts, Revoke, 0));
      row := row.(abstentions := GetOr(counts, Abstain, 0));
      campaigns := campaigns[c := row];
    }

    /** Unless items exist already, one pending item is added per live assignment. */
    method GenerateReviewItems(c: CampaignId, assignments: seq<Assignment>)
      requires c < |campaigns|
      modifies this`campaigns, this`items
      ensures State() == Generate(old(State()), c, assignments)
    {
      hide TotalItems, CompletedItems, Decisions;
      var existing, _ := CountItems(c);
      if existing != 0 {
        return;
      }
      var reviewer := campaigns[c].reviewer;
      for k := 0 to |assignments|
        invariant items == old(items) + Snapshot(c, reviewer, assignments[..k])
        invariant campaigns == old(campaigns)
      {
        items := items + [Item(c, assignments[k], None, reviewer, false)];
      }
      assert assignments[..|assignments|] == assignments;
      RecalculateCampaignCounts(c);
    }

    method StartCampaign(c: CampaignId, assignments: seq<Assignment>) returns (outcome: Outcome)
      requires Valid()
      modifies this
      ensures Valid()
      ensures (State(), outcome) == Step(old(State()), Start(c, assignments))
      ensures outcome == Done ==>
        && c < |old(campaigns)| && c < |campaigns| && items == old(items) + Snapshot(c, old(campaigns)[c].reviewer, assignments)
        && campaigns[c].totalItems == |assignments| && campaigns[c].completedItems == 0
    {
      hide Inv, NamesDiffer, Snapshot, TotalItems, CompletedItems, Decisions;
      StepKeepsValid(State(), Start(c, assignments));
      if c >= |campaigns| {
        return NotFound;
      }
      if !ValidTransition(campaigns[c].status, Active) {
        return InvalidTransition;
      }
      StartSnapshots(State(), c, assignments);
      GenerateReviewItems(c, assignments);
      campaigns := campaigns[c := campaigns[c].(status := Active)];
      outcome := Done;
    }

    /** A completed campaign has every item decided, and its counters account for all of them. */
    method CompleteCampaign(c: CampaignId) returns (outcome: Outcome)
      requires Valid()
      modifies this
      ensures Valid()
      ensures (State(), outcome) == Step(old(State()), Complete(c))
      ensures outcome == Done ==> c < |campaigns| && forall i :: 0 <= i < |items| && items[i].campaign == c ==> i in decisions
      ensures outcome == Done ==>
        var row := campaigns[c]; row.approvals + row.revocations + row.abstentions == row.completedItems == row.totalItems
      ensures outcome == Incomplete ==> c < |campaigns| && campaigns[c].completedItems < campaigns[c].totalItems
    {
      hide Inv, NamesDiffer, TotalItems, CompletedItems, Decisions;
      StepKeepsValid(State(), Complete(c));
      if c >= |campaigns| {
        return NotFound;
      }
      if !ValidTransition(campaigns[c].status, Completed) {
        return InvalidTransition;
      }
      var committed := campaigns;
      CountersFreshAt(State(), c);
      RecalculateCampaignCounts(c);
      if campaigns[c].completedItems < campaigns[c].totalItems {
        campaigns := committed;      // the request is rolled back
        return Incomplete;
      }
      campaigns := campaigns[c := campaigns[c].(status := Completed)];
      CountersAgree(State(), c);
      assert forall i :: 0 <= i < |items| && items[i].campaign == c ==> ItemOf(State(), c, i);
      outcome := Done;
    }

    method CancelCampaign(c: CampaignId) returns (outcome: Outcome)
      requires Valid()
      modifies this
      ensures Valid()
      ensures (State(), outcome) == Step(old(State()), Cancel(c))
    {
      hide Inv, NamesDiffer;
      StepKeepsValid(State(), Cancel(c));
      if c >= |campaigns| {
        return NotFound;
      }
      if !ValidTransition(campaigns[c].status, Cancelled) {
        return InvalidTransition;
      }
      campaigns := campaigns[c := campaigns[c].(status := Cancelled)];
      outcome := Done;
    }

    /** Recounting a campaign of valid tables alters nothing. */
    method SummarizeCampaign(c: CampaignId) returns (outcome: Outcome)
      requires Valid()
      modifies this
      ensures Valid()
      ensures outcome == if c < |campaigns| then Done else NotFound
      ensures State() == old(State()) && Step(old(State()), Summarize(c)) == (State(), outcome)
    {
      hide Inv, NamesDiffer;
      if c >= |campaigns| {
        return NotFound;
      }
      CountersFreshAt(State(), c);
      RecalculateCampaignCounts(c);
      assert campaigns == old(campaigns);
      outcome := Done;
    }

    /** Records a first decision or updates the existing one, then recounts. */
    method RecordDecision(i: ItemId, value: Value, actor: UserId) returns (outcome: Outcome)
      requires Valid()
      modifies this
      ensures Valid()
      ensures (State(), outcome) == Step(old(State()), Decide(i, value, actor))
      ensures outcome == Done ==>
        && i < |items| && items[i].campaign < |campaigns|
        && decisions == old(decisions)[i := Decision(items[i].campaign, actor, value)]
        && var row := campaigns[items[i].campaign];
           && row == Recounted(State(), items[i].campaign)
           && row.approvals + row.revocations + row.abstentions == row.completedItems <= row.totalItems
    {
      hide Inv, NamesDiffer, TotalItems, CompletedItems, Decisions;
      StepKeepsValid(State(), Decide(i, value, actor));
      if i >= |items| || items[i].campaign >= |campaigns| {
        return NotFound;
      }
      var c := items[i].campaign;
      if !campaigns[c].status.Active? {
        return InvalidTransition;
      }
      if i !in decisions {
        decisions := decisions[i := Decision(c, actor, value)];
      } else {
        DecisionsStayAtHome(State(), i);
        decisions := decisions[i := decisions[i].(reviewer := actor)];
        decisions := decisions[i := decisions[i].(value := value)];
      }
      assert decisions == old(decisions)[i := Decision(c, actor, value)];
      items := items[i := items[i].(reviewed := true, reviewer := actor)];
      RecalculateCampaignCounts(c);
      assert State() == Step(old(State()), Decide(i, value, actor)).0;
      CountersFreshAt(State(), c);
      CountersAgree(State(), c);
      outcome := Done;
    }
  }

  lemma StepKeepsValid(t: Tables, a: Action)
    requires Inv(t) && NamesDiffer(t)
    ensures Inv(Step(t, a).0) && NamesDiffer(Step(t, a).0)
  {
    hide Inv, NamesDiffer, Step;
    StepKeepsInv(t, a);
    StepKeepsNames(t, a);
  }

  lemma CountersFreshAt(t: Tables, c: CampaignId)
    requires Inv(t) && c < |t.campaigns|
    ensures t.campaigns[c] == Recounted(t, c)
  {
  }

  lemma DecisionsStayAtHome(t: Tables, i: ItemId)
    requires Inv(t) && i in t.decisions
    ensures i < |t.items| && t.decisions[i].campaign == t.items[i].campaign
  {
  }
}
