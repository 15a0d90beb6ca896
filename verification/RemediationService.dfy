/** The remediation service over the job table, running each job through the orchestrator. */
module RemediationService {
  import opened Prelude
  import opened Text
  import opened Certification
  import opened Remediation
  import RetryPolicies
  import Connectors
  import Provisioning

  /** The connector that serves an application, if there is one. */
  function ConnectorNameFor(application: string): Option<string> {
    if application == "salesforce" || application == "github" || application == "zendesk" then Some(application)
    else if application == "finance-portal" then Some("finance")
    else None
  }

  function Correlations(jobs: seq<Provisioning.Job>): seq<string> {
    seq(|jobs|, i requires 0 <= i < |jobs| => jobs[i].correlation)
  }

  datatype Plan = Plan(connector: string, operation: Connectors.Operation, payload: map<string, Connectors.Value>)

  /** What a job asks of which connector; none when the application has no connector or a membership
      job has no group. */
  function OperationFor(job: Job, item: Item): Option<Plan> {
    var name := ConnectorNameFor(item.assignment.application);
    var user := Connectors.TextValue(Decimal(item.assignment.user));
    if name.None? then None
    else if job.kind.RevokeEntitlement? then
      Some(Plan(name.value, Connectors.RevokeEntitlement, map["user_id" := user, "entitlement" := Connectors.Mapping]))
    else if item.group.None? then None
    else
      Some(Plan(name.value, Connectors.RemoveGroupMember,
                map["group_id" := Connectors.TextValue(Decimal(item.group.value)), "user_id" := user]))
  }

  /** The job after looking up the newest provisioning job with its correlation id. */
  function Linked(job: Job, provisioning: seq<string>): Job {
    var newest := Latest(provisioning, job.correlation);
    if newest.Some? then job.(provisioningJob := newest) else job
  }

  datatype Refusal = ItemNotFound | UnsupportedDecision | DuplicateJob

  datatype CampaignResult = CampaignResult(createdJobs: nat, jobs: seq<nat>, skippedDecisions: nat)

  /** Executions seen so far, read as a total function. */
  ghost function Seen(executions: map<ItemId, Execution>): ItemId -> Execution {
    (i: ItemId) => GetOr(executions, i, RaisedEarly)
  }

  class Service {
    const provisioning: Provisioning.JobService
    const registry: map<string, Connectors.Connector>
    const policy: RetryPolicies.Policy
    var tables: Tables
    var jobs: seq<Job>
    ghost var own: seq<Option<nat>>

    constructor (provisioning: Provisioning.JobService, registry: map<string, Connectors.Connector>,
                 policy: RetryPolicies.Policy, tables: Tables)
      ensures this.provisioning == provisioning && this.registry == registry && this.policy == policy
      ensures this.tables == tables && jobs == [] && own == []
    {
      this.provisioning, this.registry, this.policy, this.tables := provisioning, registry, policy, tables;
      jobs, own := [], [];
    }

    ghost function State(): World
      reads this, provisioning
    {
      World(tables, jobs, Correlations(provisioning.jobs), own)
    }

    method FindJobByReviewItem(i: ItemId) returns (k: Option<nat>)
      ensures k.Some? ==> k.value < |jobs| && jobs[k.value].item == i
      ensures k.None? <==> !HasJob(jobs, i)
    {
      for j := 0 to |jobs|
        invariant forall x :: 0 <= x < j ==> jobs[x].item != i
      {
        if jobs[j].item == i {
          return Some(j);
        }
      }
      k := None;
    }

    /** A pending job for a review item that exists, was decided on with a revocation and has no job yet. */
    method CreateJob(i: ItemId, correlation: string) returns (r: Result<nat, Refusal>)
      modifies this`jobs
      ensures r == Err(ItemNotFound) <==> i >= |tables.items|
      ensures r == Err(UnsupportedDecision) <==> i < |tables.items| && (i in tables.decisions ==> !tables.decisions[i].value.Revoke?)
      ensures r == Err(DuplicateJob) <==>
        i < |tables.items| && i in tables.decisions && tables.decisions[i].value.Revoke? && HasJob(old(jobs), i)
      ensures r.Ok? <==> i < |tables.items| && i in tables.decisions && tables.decisions[i].value.Revoke? && !HasJob(old(jobs), i)
      ensures r.Ok? ==>
        && r.value == |old(jobs)|
        && jobs == old(jobs) + [Job(i, tables.items[i].campaign, correlation, KindFor(tables.items[i]), Pending, None)]
      ensures r.Err? ==> jobs == old(jobs)
    {
      if i >= |tables.items| {
        return Err(ItemNotFound);
      }
      if i !in tables.decisions || !tables.decisions[i].value.Revoke? {
        return Err(UnsupportedDecision);
      }
      var existing := FindJobByReviewItem(i);
      if existing.Some? {
        return Err(DuplicateJob);
      }
      r := Ok(|jobs|);
      jobs := jobs + [Job(i, tables.items[i].campaign, correlation, KindFor(tables.items[i]), Pending, None)];
    }

    /** Links the job to the newest provisioning job that carries its correlation id. */
    method LinkProvisioningJob(k: nat)
      requires k < |jobs|
      modifies this`jobs
      ensures jobs == old(jobs)[k := Linked(old(jobs)[k], Correlations(provisioning.jobs))]
    {
      var newest := Latest(Correlations(provisioning.jobs), jobs[k].correlation);
      if newest.Some? {
        jobs := jobs[k := jobs[k].(provisioningJob := newest)];
      }
    }

    method StartJob(k: nat)
      requires k < |jobs|
      modifies this`jobs
      ensures jobs == old(jobs)[k := old(jobs)[k].(status := Running)]
    {
      jobs := jobs[k := jobs[k].(status := Running)];
    }

    method CompleteJob(k: nat, status: JobStatus)
      requires k < |jobs|
      modifies this`jobs
      ensures jobs == old(jobs)[k := old(jobs)[k].(status := status)]
    {
      jobs := jobs[k := jobs[k].(status := status)];
    }

    method FailJob(k: nat)
      requires k < |jobs|
      modifies this`jobs
      ensures jobs == old(jobs)[k := Linked(old(jobs)[k], Correlations(provisioning.jobs)).(status := Failed)]
    {
      LinkProvisioningJob(k);
      jobs := jobs[k := jobs[k].(status := Failed)];
    }

    /** Runs a pending job through the orchestrator and closes it with what came out. */
    method ExecuteJob(k: nat) returns (ghost e: Execution)
      requires RetryPolicies.ValidPolicy(policy)
      requires k < |jobs| && jobs[k].status.Pending? && jobs[k].provisioningJob.None? && jobs[k].item < |tables.items|
      modifies this`jobs, provisioning, set name | name in registry :: registry[name]
      ensures Correlations(provisioning.jobs) ==
                Correlations(old(provisioning.jobs)) + if CreatesJob(e) then [old(jobs)[k].correlation] else []
      ensures jobs == old(jobs)[k := old(jobs)[k].(status := StatusAfter(e),
                provisioningJob := Latest(Correlations(provisioning.jobs), old(jobs)[k].correlation))]
      ensures var plan := OperationFor(old(jobs)[k], tables.items[old(jobs)[k].item]);
              if plan.None? || plan.value.connector !in registry
              then e == RaisedEarly && provisioning.jobs == old(provisioning.jobs)
              else
                && |provisioning.jobs| == |old(provisioning.jobs)| + 1 && provisioning.jobs[..|old(provisioning.jobs)|] == old(provisioning.jobs)
                && var ran := provisioning.jobs[|old(provisioning.jobs)|];
                   && e.Finished? && ran.status == Provisioning.Ended(e.status)
                   && ran.operation == plan.value.operation && ran.correlation == old(jobs)[k].correlation
    {
      hide Latest, Provisioning.LastAttempt, Provisioning.ResultOf, Provisioning.Trace, ConnectorNameFor;
      var job := jobs[k];
      var item := tables.items[job.item];
      StartJob(k);
      var plan := OperationFor(job, item);
      if plan.None? || plan.value.connector !in registry {
        e := RaisedEarly;
        FailJob(k);
        assert Correlations(old(provisioning.jobs)) + [] == Correlations(old(provisioning.jobs));
        return;
      }
      var result := Provisioning.Execute(provisioning, registry[plan.value.connector], policy,
                                         plan.value.operation, plan.value.payload, job.correlation);
      e := Finished(result.status);
      assert Correlations(provisioning.jobs) == Correlations(old(provisioning.jobs)) + [job.correlation];
      LatestIsNewest(Correlations(old(provisioning.jobs)), job.correlation);
      LinkProvisioningJob(k);
      if result.status.Success? {
        CompleteJob(k, JobStatus.Completed);
      } else if result.status.Skipped? {
        CompleteJob(k, JobStatus.Skipped);
      } else {
        FailJob(k);
      }
    }

    /** The job of one item: the existing one, or a new one that is executed at once. */
    method RemediateItem(i: ItemId, correlation: string) returns (k: nat, made: bool, ghost e: Execution)
      requires RetryPolicies.ValidPolicy(policy) && i < |tables.items|
      requires i in tables.decisions && tables.decisions[i].value.Revoke?
      modifies this`jobs, this`own, provisioning, set name | name in registry :: registry[name]
      ensures made <==> !HasJob(old(jobs), i)
      ensures State() == if made then RunJob(old(State()), i, correlation, e) else old(State())
      ensures k < |jobs| && jobs[k].item == i
      ensures old(jobs) <= jobs && |jobs| == |old(jobs)| + if made then 1 else 0
    {
      e := RaisedEarly;
      var existing := FindJobByReviewItem(i);
      if existing.Some? {
        return existing.value, false, e;
      }
      ghost var w := State();
      var created := CreateJob(i, correlation);
      k := created.value;
      e := ExecuteJob(k);
      own := own + [if CreatesJob(e) then Some(|w.provisioning|) else None];
      RunJobIs(w, State(), i, correlation, e);
      made := true;
    }

    /** The loop over the remediable items. */
    method ExecuteItems(items: seq<ItemId>, correlations: ItemId -> string)
      returns (found: seq<nat>, created: nat, ghost executions: map<ItemId, Execution>)
      requires RetryPolicies.ValidPolicy(policy) && Listed(tables, items) && Distinct(items)
      requires forall i :: i in items ==> i in tables.decisions && tables.decisions[i].value.Revoke?
      modifies this`jobs, this`own, provisioning, set name | name in registry :: registry[name]
      ensures State() == RunItems(old(State()), items, correlations, Seen(executions))
      ensures JobsOf(jobs, found, items) && created == |jobs| - |old(jobs)|
    {
      hide RunJob, RunItems, JobsOf, HasJob, Correlations;
      found, created, executions := [], 0, map[];
      ghost var before := State();
      RunNothing(before, correlations, executions, jobs);
      for n := 0 to |items|
        invariant Listed(tables, items[..n])
        invariant State() == RunItems(before, items[..n], correlations, Seen(executions))
        invariant JobsOf(jobs, found, items[..n]) && created == |jobs| - |old(jobs)|
        invariant forall x :: x in executions ==> x in items[..n]
      {
        var i := items[n];
        assert items[..n + 1] == items[..n] + [i] && i in items;
        assert i !in items[..n];
        RunItemsAppend(before, items[..n], i, correlations, Seen(executions));
        ghost var jobs0 := jobs;
        var k, made, e := RemediateItem(i, correlations(i));
        if made {
          SameExecutions(before, items[..n], correlations, Seen(executions), Seen(executions[i := e]));
          executions := executions[i := e];
          RunItemsAppend(before, items[..n], i, correlations, Seen(executions));
          created := created + 1;
        }
        KeepFound(jobs0, jobs, found, items[..n]);
        found := found + [k];
      }
      assert items[..|items|] == items;
    }

    /** Creates and executes a job for each revoked item that has none yet. */
    method ExecuteCampaign(c: CampaignId, correlations: ItemId -> string)
      returns (r: Option<CampaignResult>, ghost executions: map<ItemId, Execution>)
      requires RetryPolicies.ValidPolicy(policy)
      modifies this`jobs, this`own, provisioning, set name | name in registry :: registry[name]
      ensures State() == RemediateStep(old(State()), c, correlations, Seen(executions))
      ensures r.None? <==> !Ready(old(State()), c)
      ensures r.Some? ==>
        && JobsOf(jobs, r.value.jobs, RevokedItems(tables, c))
        && r.value.createdJobs == |jobs| - |old(jobs)|
        && (Inv(tables) ==> |r.value.jobs| + r.value.skippedDecisions == tables.campaigns[c].totalItems)
    {
      hide RunItems, Select, Correlations, Inv;
      executions := map[];
      if c >= |tables.campaigns| || !tables.campaigns[c].status.Completed? {
        return None, executions;
      }
      var items := RevokedItems(tables, c);
      var skipped := Count(|tables.items|, NotRemediable(tables, c));
      SelectMembers(|tables.items|, Remediable(tables, c));
      var found, created;
      found, created, executions := ExecuteItems(items, correlations);
      if Inv(tables) {
        ResultAccountsForAllItems(tables, c);
      }
      r := Some(CampaignResult(created, found, skipped));
    }
  }

  /** Which connector, operation, user, group and entitlement a job is carried out with; none exactly when
      the application has no connector, or a membership job no group. */
  lemma OperationMeaning(job: Job, item: Item)
    ensures var plan, app := OperationFor(job, item), item.assignment.application;
            && (plan == None <==>
                  || (app != "salesforce" && app != "github" && app != "zendesk" && app != "finance-portal")
                  || (job.kind == RemoveGroupMember && item.group == None))
            && (plan.Some? ==>
                  && plan.value.connector == (if app == "finance-portal" then "finance" else app)
                  && "user_id" in plan.value.payload && plan.value.payload["user_id"] == Connectors.TextValue(Decimal(item.assignment.user)))
            && (plan.Some? && job.kind == RevokeEntitlement ==>
                  && plan.value.operation == Connectors.RevokeEntitlement
                  && plan.value.payload.Keys == {"user_id", "entitlement"} && plan.value.payload["entitlement"] == Connectors.Mapping)
            && (plan.Some? && job.kind == RemoveGroupMember ==>
                  && plan.value.operation == Connectors.RemoveGroupMember && item.group.Some?
                  && plan.value.payload.Keys == {"user_id", "group_id"}
                  && plan.value.payload["group_id"] == Connectors.TextValue(Decimal(item.group.value)))
  {
    hide Decimal;
    assert |"user_id"| == 7 && |"group_id"| == 8 && |"entitlement"| == 11;
  }

  /** Whatever a job asks for passes the orchestrator's payload checks. */
  lemma PlansAreDispatchable(job: Job, item: Item)
    ensures var plan := OperationFor(job, item);
            plan.Some? ==> Connectors.Dispatchable(plan.value.operation, plan.value.payload)
  {
    hide ConnectorNameFor;
    IdIsPresent(item.assignment.user);
    if item.group.Some? {
      IdIsPresent(item.group.value);
    }
  }

  lemma IdIsPresent(id: nat)
    ensures Strip(Decimal(id)) != ""
  {
    DecimalDigits(id);
    StripOfStripped(Decimal(id));
  }

  lemma RunNothing(w: World, correlations: ItemId -> string, executions: map<ItemId, Execution>, jobs: seq<Job>)
    ensures RunItems(w, [], correlations, Seen(executions)) == w && JobsOf(jobs, [], [])
  {
  }

  /** `found` names, item by item, a job of that item. */
  ghost predicate JobsOf(jobs: seq<Job>, found: seq<nat>, items: seq<ItemId>) {
    |found| == |items| && forall k :: 0 <= k < |found| ==> found[k] < |jobs| && jobs[found[k]].item == items[k]
  }

  lemma KeepFound(jobs: seq<Job>, more: seq<Job>, found: seq<nat>, items: seq<ItemId>)
    requires JobsOf(jobs, found, items) && jobs <= more
    ensures forall k: nat, i :: k < |more| && more[k].item == i ==> JobsOf(more, found + [k], items + [i])
  {
    forall k | 0 <= k < |found| ensures found[k] < |more| && more[found[k]].item == items[k] {
      assert more[found[k]] == jobs[found[k]];
    }
  }

  lemma RunJobIs(w: World, w': World, i: ItemId, correlation: string, e: Execution)
    requires i < |w.tables.items| && w'.tables == w.tables
    requires w'.provisioning == w.provisioning + if CreatesJob(e) then [correlation] else []
    requires w'.jobs == w.jobs + [Job(i, w.tables.items[i].campaign, correlation, KindFor(w.tables.items[i]), StatusAfter(e),
                                      Latest(w'.provisioning, correlation))]
    requires w'.own == w.own + [if CreatesJob(e) then Some(|w.provisioning|) else None]
    ensures w' == RunJob(w, i, correlation, e)
  {
    assert w.provisioning + [] == w.provisioning;
  }

  /** Only the executions of the listed items matter. */
  lemma {:induction false} SameExecutions(w: World, items: seq<ItemId>, correlations: ItemId -> string,
                                          executions: ItemId -> Execution, executions': ItemId -> Execution)
    requires forall x :: x in items ==> x < |w.tables.items| && executions(x) == executions'(x)
    ensures RunItems(w, items, correlations, executions) == RunItems(w, items, correlations, executions')
    decreases |items|
  {
    if items == [] {
    } else {
      var j := items[0];
      assert j in items && forall x :: x in items[1..] ==> x in items;
      var next := if HasJob(w.jobs, j) then w else RunJob(w, j, correlations(j), executions(j));
      SameExecutions(next, items[1..], correlations, executions, executions');
    }
  }
}
