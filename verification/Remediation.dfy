/** Remediation of completed campaigns: one job per revoked item, linked to its provisioning job. */
module Remediation {
  import opened Prelude
  import opened Certification
  import Connectors

  datatype Kind = RevokeEntitlement | RemoveGroupMember

  datatype JobStatus = Pending | Running | Completed | Skipped | Failed

  predicate Terminal(status: JobStatus) {
    status.Completed? || status.Skipped? || status.Failed?
  }

  datatype Job = Job(item: ItemId, campaign: CampaignId, correlation: string, kind: Kind, status: JobStatus,
                     provisioningJob: Option<nat>)

  /** How one execution went: an error before or after the provisioning job was created, or a result. */
  datatype Execution = RaisedEarly | RaisedLate | Finished(status: Connectors.Status)

  /** `provisioning` lists the correlation ids of the provisioning jobs in id order. `own` is an
      auxiliary record of the provisioning job that each remediation job's execution created. */
  datatype World = World(tables: Tables, jobs: seq<Job>, provisioning: seq<string>, own: seq<Option<nat>>)

  datatype Request =
    | Govern(action: Action)
    | Remediate(campaign: CampaignId, correlations: ItemId -> string, executions: ItemId -> Execution)
    | OtherProvisioning(correlation: string)

  const EMPTY_WORLD: World := World(EMPTY, [], [], [])

  // ----- One job

  predicate CreatesJob(e: Execution) {
    !e.RaisedEarly?
  }

  function StatusAfter(e: Execution): JobStatus {
    if e.Finished? && e.status.Success? then JobStatus.Completed
    else if e.Finished? && e.status.Skipped? then Skipped
    else Failed
  }

  /** A success completes the job, a skipped operation skips it, anything else fails it. */
  lemma StatusMeaning(e: Execution)
    ensures StatusAfter(e) == JobStatus.Completed <==> e == Finished(Connectors.Success)
    ensures StatusAfter(e) == Skipped <==> e == Finished(Connectors.Skipped)
    ensures StatusAfter(e) == Failed <==>
      e == RaisedEarly || e == RaisedLate || e == Finished(Connectors.Failed) || e == Finished(Connectors.Retryable)
  {
  }

  /** Items about a group lose a membership, all others an entitlement. */
  lemma KindMeaning(item: Item)
    ensures KindFor(item) == RemoveGroupMember <==> item.group.Some?
  {
  }

  function KindFor(item: Item): Kind {
    if item.group.Some? then RemoveGroupMember else RevokeEntitlement
  }

  /** The newest provisioning job with the given correlation id. */
  function Latest(provisioning: seq<string>, correlation: string): (r: Option<nat>)
    ensures r.Some? ==> r.value < |provisioning| && provisioning[r.value] == correlation
    ensures r.Some? ==> forall k :: r.value < k < |provisioning| ==> provisioning[k] != correlation
    ensures r.None? <==> correlation !in provisioning
  {
    if provisioning == [] then None
    else
      var n := |provisioning| - 1;
      assert provisioning == provisioning[..n] + [provisioning[n]];
      if provisioning[n] == correlation then Some(n) else Latest(provisioning[..n], correlation)
  }

  /** Creating and executing the job of one item. */
  function RunJob(w: World, i: ItemId, correlation: string, e: Execution): World
    requires i < |w.tables.items|
  {
    var provisioning := if CreatesJob(e) then w.provisioning + [correlation] else w.provisioning;
    var item := w.tables.items[i];
    w.(jobs := w.jobs + [Job(i, item.campaign, correlation, KindFor(item), StatusAfter(e), Latest(provisioning, correlation))],
       provisioning := provisioning,
       own := w.own + [if CreatesJob(e) then Some(|w.provisioning|) else None])
  }

  // ----- One campaign

  predicate RevokedIn(t: Tables, c: CampaignId, i: ItemId) {
    i in t.decisions && ItemOf(t, c, i) && t.decisions[i].value.Revoke?
  }

  function Remediable(t: Tables, c: CampaignId): nat -> bool {
    (i: nat) => RevokedIn(t, c, i)
  }

  function NotRemediable(t: Tables, c: CampaignId): nat -> bool {
    (i: nat) => DecisionOf(t, c, i) && !t.decisions[i].value.Revoke?
  }

  predicate HasJob(jobs: seq<Job>, i: ItemId) {
    exists k :: 0 <= k < |jobs| && jobs[k].item == i
  }

  function RunItems(w: World, items: seq<ItemId>, correlations: ItemId -> string, executions: ItemId -> Execution): World
    requires forall i :: i in items ==> i < |w.tables.items|
    decreases |items|
  {
    if items == [] then w
    else
      var i := items[0];
      assert i in items && forall x :: x in items[1..] ==> x in items;
      var next := if HasJob(w.jobs, i) then w else RunJob(w, i, correlations(i), executions(i));
      RunItems(next, items[1..], correlations, executions)
  }

  function RevokedItems(t: Tables, c: CampaignId): (r: seq<ItemId>)
    ensures forall i: nat :: i in r <==> i < |t.items| && RevokedIn(t, c, i)
  {
    SelectMembers(|t.items|, Remediable(t, c));
    Select(|t.items|, Remediable(t, c))
  }

  predicate Ready(w: World, c: CampaignId) {
    c < |w.tables.campaigns| && w.tables.campaigns[c].status.Completed?
  }

  /** Only a completed campaign is remediated; anything else is refused. */
  function RemediateStep(w: World, c: CampaignId, correlations: ItemId -> string, executions: ItemId -> Execution): World {
    if !Ready(w, c) then w else RunItems(w, RevokedItems(w.tables, c), correlations, executions)
  }

  function StepWorld(w: World, r: Request): World {
    match r
    case Govern(a) => w.(tables := Step(w.tables, a).0)
    case Remediate(c, correlations, executions) => RemediateStep(w, c, correlations, executions)
    case OtherProvisioning(correlation) => w.(provisioning := w.provisioning + [correlation])
  }

  function RunWorld(w: World, requests: seq<Request>): World {
    if requests == [] then w
    else
      var n := |requests| - 1;
      StepWorld(RunWorld(w, requests[..n]), requests[n])
  }

  // ----- Run invariants

  /** Jobs are closed and belong to pairwise different items, each a revoked item of a completed campaign. */
  ghost predicate JobsFit(t: Tables, jobs: seq<Job>) {
    && (forall j, k :: 0 <= j < k < |jobs| ==> jobs[j].item != jobs[k].item)
    && (forall j :: 0 <= j < |jobs| ==> JobFits(t, jobs[j]))
  }

  ghost predicate JobFits(t: Tables, job: Job) {
    && job.campaign < |t.campaigns| && t.campaigns[job.campaign].status.Completed?
    && job.item < |t.items| && RevokedIn(t, job.campaign, job.item)
    && Terminal(job.status)
  }

  /** Every link points at an existing provisioning job with the same correlation id. A job whose
      execution created a provisioning job links to that job, which is newer than every link of an
      earlier job; a job whose execution created none has failed. */
  ghost predicate LinksFit(w: World) {
    && |w.own| == |w.jobs|
    && (forall j :: 0 <= j < |w.jobs| ==> LinkFits(w.jobs[j], w.own[j], w.provisioning))
    && (forall j, k :: 0 <= j < k < |w.jobs| && w.jobs[j].provisioningJob.Some? && w.own[k].Some? ==>
          w.jobs[j].provisioningJob.value < w.own[k].value)
  }

  ghost predicate LinkFits(job: Job, own: Option<nat>, provisioning: seq<string>) {
    && (job.provisioningJob.Some? ==>
          job.provisioningJob.value < |provisioning| && provisioning[job.provisioningJob.value] == job.correlation)
    && (if own.Some? then job.provisioningJob == own else job.status.Failed?)
  }

  ghost predicate WorldInv(w: World) {
    Inv(w.tables) && JobsFit(w.tables, w.jobs) && LinksFit(w)
  }

  lemma LatestIsNewest(provisioning: seq<string>, correlation: string)
    ensures Latest(provisioning + [correlation], correlation) == Some(|provisioning|)
  {
  }

  lemma RunJobKeepsLinks(w: World, i: ItemId, correlation: string, e: Execution)
    requires LinksFit(w) && i < |w.tables.items|
    ensures LinksFit(RunJob(w, i, correlation, e))
  {
    hide KindFor, Latest;
    LatestIsNewest(w.provisioning, correlation);
    var w' := RunJob(w, i, correlation, e);
    var n := |w.jobs|;
    forall j | 0 <= j < n ensures w'.jobs[j] == w.jobs[j] && w'.own[j] == w.own[j] {}
    forall j | 0 <= j < |w'.jobs| ensures LinkFits(w'.jobs[j], w'.own[j], w'.provisioning) {
      if j < n {
        assert LinkFits(w.jobs[j], w.own[j], w.provisioning);
      }
    }
    forall j, k | 0 <= j < k < |w'.jobs| && w'.jobs[j].provisioningJob.Some? && w'.own[k].Some?
      ensures w'.jobs[j].provisioningJob.value < w'.own[k].value
    {
      assert LinkFits(w.jobs[j], w.own[j], w.provisioning);
    }
  }

  lemma RunJobKeepsInv(w: World, c: CampaignId, i: ItemId, correlation: string, e: Execution)
    requires WorldInv(w) && Ready(w, c) && i < |w.tables.items| && RevokedIn(w.tables, c, i) && !HasJob(w.jobs, i)
    ensures WorldInv(RunJob(w, i, correlation, e))
  {
    hide Inv, Latest, LinksFit;
    RunJobKeepsLinks(w, i, correlation, e);
    var w' := RunJob(w, i, correlation, e);
    assert JobFits(w.tables, w'.jobs[|w.jobs|]);
    forall j | 0 <= j < |w.jobs| ensures w'.jobs[j].item != i {
      assert w'.jobs[j] == w.jobs[j];
    }
  }

  ghost predicate Listed(t: Tables, items: seq<ItemId>) {
    forall i :: i in items ==> i < |t.items|
  }

  lemma {:induction false} RunItemsAppend(w: World, items: seq<ItemId>, i: ItemId, correlations: ItemId -> string, executions: ItemId -> Execution)
    requires Listed(w.tables, items) && i < |w.tables.items|
    ensures Listed(w.tables, items + [i])
    ensures var before := RunItems(w, items, correlations, executions);
            && before.tables == w.tables
            && RunItems(w, items + [i], correlations, executions) ==
               if HasJob(before.jobs, i) then before else RunJob(before, i, correlations(i), executions(i))
    decreases |items|
  {
    hide HasJob;
    if items == [] {
      assert items + [i] == [i];
    } else {
      var j := items[0];
      assert j in items && forall x :: x in items[1..] ==> x in items;
      assert (items + [i])[1..] == items[1..] + [i];
      var next := if HasJob(w.jobs, j) then w else RunJob(w, j, correlations(j), executions(j));
      RunItemsAppend(next, items[1..], i, correlations, executions);
    }
  }

  /** Running the items of a completed campaign: old jobs stay, every listed item ends with a job,
      and nobody else gets one. */
  lemma {:induction false} RunItemsGivesJobs(w: World, c: CampaignId, items: seq<ItemId>,
                                             correlations: ItemId -> string, executions: ItemId -> Execution)
    requires WorldInv(w) && Ready(w, c)
    requires forall i :: i in items ==> i < |w.tables.items| && RevokedIn(w.tables, c, i)
    ensures var w' := RunItems(w, items, correlations, executions);
            && WorldInv(w') && w'.tables == w.tables
            && w.jobs <= w'.jobs
            && (forall i :: i in items ==> HasJob(w'.jobs, i))
            && (forall k :: |w.jobs| <= k < |w'.jobs| ==> w'.jobs[k].item in items)
            && ((forall i :: i in items ==> HasJob(w.jobs, i)) ==> w' == w)
    decreases |items|
  {
    hide Inv, RevokedIn, JobsFit, LinksFit, RunJob;
    if items == [] {
    } else {
      var i, rest := items[0], items[1..];
      assert i in items && forall x :: x in rest ==> x in items;
      if HasJob(w.jobs, i) {
        RunItemsGivesJobs(w, c, rest, correlations, executions);
        MoreJobs(w.jobs, RunItems(w, rest, correlations, executions).jobs, i);
      } else {
        var next := RunJob(w, i, correlations(i), executions(i));
        RunJobKeepsInv(w, c, i, correlations(i), executions(i));
        JobAdded(w, i, correlations(i), executions(i));
        RunItemsGivesJobs(next, c, rest, correlations, executions);
        MoreJobs(next.jobs, RunItems(next, rest, correlations, executions).jobs, i);
      }
    }
  }

  lemma JobAdded(w: World, i: ItemId, correlation: string, e: Execution)
    requires i < |w.tables.items|
    ensures var w' := RunJob(w, i, correlation, e);
            && w'.tables == w.tables && |w'.jobs| == |w.jobs| + 1 && w.jobs <= w'.jobs
            && w'.jobs[|w.jobs|].item == i && HasJob(w'.jobs, i)
            && w'.jobs[|w.jobs|].status == StatusAfter(e)
  {
    var w' := RunJob(w, i, correlation, e);
    assert w'.jobs[|w.jobs|].item == i;
  }

  lemma MoreJobs(jobs: seq<Job>, more: seq<Job>, i: ItemId)
    requires jobs <= more && HasJob(jobs, i)
    ensures HasJob(more, i)
  {
    var k :| 0 <= k < |jobs| && jobs[k].item == i;
    assert more[k] == jobs[k];
  }

  /** Governance steps never touch what a job relies on: its campaign is closed. */
  lemma GovernKeepsJobs(w: World, a: Action)
    requires WorldInv(w)
    ensures WorldInv(w.(tables := Step(w.tables, a).0))
  {
    hide Step, Inv, LinkFits;
    var t, t' := w.tables, Step(w.tables, a).0;
    StepKeepsInv(t, a);
    forall j | 0 <= j < |w.jobs|
      ensures JobFits(t', w.jobs[j])
    {
      StepFreezes(t, a, w.jobs[j].campaign);
      assert ItemOf(t', w.jobs[j].campaign, w.jobs[j].item);
    }
  }

  lemma MoreProvisioningKeepsLinks(w: World, correlation: string)
    requires LinksFit(w)
    ensures LinksFit(w.(provisioning := w.provisioning + [correlation]))
  {
    forall j | 0 <= j < |w.jobs| ensures LinkFits(w.jobs[j], w.own[j], w.provisioning + [correlation]) {
      assert LinkFits(w.jobs[j], w.own[j], w.provisioning);
    }
  }

  lemma StepKeepsWorld(w: World, r: Request)
    requires WorldInv(w)
    ensures WorldInv(StepWorld(w, r))
  {
    hide Step, Inv, JobsFit, LinksFit, RunItems;
    match r
    case Govern(a) => GovernKeepsJobs(w, a);
    case Remediate(c, correlations, executions) =>
      if Ready(w, c) {
        RunItemsGivesJobs(w, c, RevokedItems(w.tables, c), correlations, executions);
      }
    case OtherProvisioning(correlation) => MoreProvisioningKeepsLinks(w, correlation);
  }

  lemma {:induction false} RunKeepsWorld(requests: seq<Request>)
    ensures WorldInv(RunWorld(EMPTY_WORLD, requests))
    decreases |requests|
  {
    hide StepWorld, WorldInv;
    if requests != [] {
      var n := |requests| - 1;
      RunKeepsWorld(requests[..n]);
      StepKeepsWorld(RunWorld(EMPTY_WORLD, requests[..n]), requests[n]);
    } else {
      EmptyWorldInv();
    }
  }

  lemma EmptyWorldInv()
    ensures WorldInv(EMPTY_WORLD)
  {
    EmptyInv();
  }

  // ----- Exactly once

  /** After any run, remediating a completed campaign leaves exactly one job for each of its revoked
      items and none for any other item of the campaign; the jobs that existed stay as they were. */
  lemma RemediationIsExact(requests: seq<Request>, c: CampaignId, correlations: ItemId -> string, executions: ItemId -> Execution)
    requires Ready(RunWorld(EMPTY_WORLD, requests), c)
    ensures var w := RunWorld(EMPTY_WORLD, requests);
            var w' := RemediateStep(w, c, correlations, executions);
            && w.jobs <= w'.jobs
            && (forall i: nat :: ItemOf(w.tables, c, i) ==> (HasJob(w'.jobs, i) <==> RevokedIn(w.tables, c, i)))
            && (forall j, k :: 0 <= j < k < |w'.jobs| ==> w'.jobs[j].item != w'.jobs[k].item)
            && (forall k :: |w.jobs| <= k < |w'.jobs| ==> w'.jobs[k].campaign == c && Terminal(w'.jobs[k].status))
  {
    hide RunItems, Inv, RunWorld;
    var w := RunWorld(EMPTY_WORLD, requests);
    RunKeepsWorld(requests);
    RunItemsGivesJobs(w, c, RevokedItems(w.tables, c), correlations, executions);
    var w' := RemediateStep(w, c, correlations, executions);
    forall i: nat | ItemOf(w.tables, c, i)
      ensures HasJob(w'.jobs, i) <==> RevokedIn(w.tables, c, i)
    {
      if HasJob(w'.jobs, i) {
        var k :| 0 <= k < |w'.jobs| && w'.jobs[k].item == i;
        assert JobFits(w'.tables, w'.jobs[k]);
      }
    }
    forall k | |w.jobs| <= k < |w'.jobs| ensures w'.jobs[k].campaign == c && Terminal(w'.jobs[k].status) {
      assert JobFits(w'.tables, w'.jobs[k]);
    }
  }

  /** The same over the rows: nothing happens unless the campaign is completed; afterwards its items with
      a revoke decision, and no others, have a job, each exactly one. */
  lemma RemediationWrittenOut(requests: seq<Request>, c: CampaignId, correlations: ItemId -> string, executions: ItemId -> Execution)
    ensures var w := RunWorld(EMPTY_WORLD, requests);
            var t, w' := w.tables, RemediateStep(w, c, correlations, executions);
            && (c >= |t.campaigns| || t.campaigns[c].status != CampaignStatus.Completed ==> w' == w)
            && (c < |t.campaigns| && t.campaigns[c].status == CampaignStatus.Completed ==>
                  forall i: nat :: i < |t.items| && t.items[i].campaign == c ==>
                    ((exists k :: 0 <= k < |w'.jobs| && w'.jobs[k].item == i) <==> i in t.decisions && t.decisions[i].value == Revoke))
            && (forall j, k :: 0 <= j < k < |w'.jobs| ==> w'.jobs[j].item != w'.jobs[k].item)
  {
    hide RunItems, RunWorld, Inv, LinksFit;
    var w := RunWorld(EMPTY_WORLD, requests);
    RunKeepsWorld(requests);
    if c < |w.tables.campaigns| && w.tables.campaigns[c].status == CampaignStatus.Completed {
      RemediationIsExact(requests, c, correlations, executions);
      var w' := RemediateStep(w, c, correlations, executions);
      forall i: nat | i < |w.tables.items| && w.tables.items[i].campaign == c
        ensures (exists k :: 0 <= k < |w'.jobs| && w'.jobs[k].item == i) <==> i in w.tables.decisions && w.tables.decisions[i].value == Revoke
      {
        assert ItemOf(w.tables, c, i);
        assert HasJob(w'.jobs, i) <==> RevokedIn(w.tables, c, i);
      }
    }
  }

  /** Remediating the campaign again, after any further run, creates no job and no provisioning job. */
  lemma RerunCreatesNothing(w: World, c: CampaignId, correlations: ItemId -> string, executions: ItemId -> Execution,
                            between: seq<Request>, correlations': ItemId -> string, executions': ItemId -> Execution)
    requires WorldInv(w) && Ready(w, c)
    ensures var later := RunWorld(RemediateStep(w, c, correlations, executions), between);
            RemediateStep(later, c, correlations', executions') == later
  {
    hide RunItems, Inv, RunWorld, JobsFit, LinksFit;
    var first := RemediateStep(w, c, correlations, executions);
    RunItemsGivesJobs(w, c, RevokedItems(w.tables, c), correlations, executions);
    LaterKeepsJobs(first, c, between);
    var later := RunWorld(first, between);
    forall i | i in RevokedItems(later.tables, c)
      ensures HasJob(later.jobs, i)
    {
      assert ItemOf(later.tables, c, i);
      MoreJobs(first.jobs, later.jobs, i);
    }
    RunItemsGivesJobs(later, c, RevokedItems(later.tables, c), correlations', executions');
  }

  lemma {:induction false} LaterKeepsJobs(w: World, c: CampaignId, between: seq<Request>)
    requires WorldInv(w) && Ready(w, c)
    ensures var later := RunWorld(w, between);
            WorldInv(later) && w.jobs <= later.jobs && Ready(later, c) && Frozen(w.tables, later.tables, c)
    decreases |between|
  {
    hide RunItems, Inv, JobsFit, LinksFit, Step;
    if between == [] {
    } else {
      var n := |between| - 1;
      LaterKeepsJobs(w, c, between[..n]);
      var before, r := RunWorld(w, between[..n]), between[n];
      StepKeepsWorld(before, r);
      match r
      case Govern(a) =>
        StepFreezes(before.tables, a, c);
      case Remediate(d, correlations, executions) =>
        if Ready(before, d) {
          RunItemsGivesJobs(before, d, RevokedItems(before.tables, d), correlations, executions);
        }
      case OtherProvisioning(_) =>
    }
  }

  lemma RowIsRecounted(t: Tables, c: CampaignId)
    requires Inv(t) && c < |t.campaigns|
    ensures t.campaigns[c].totalItems == TotalItems(t, c)
  {
    hide TotalItems, CompletedItems, Decisions;
    assert t.campaigns[c] == Recounted(t, c);
  }

  /** The result of a remediation accounts for every item: one returned job per revoked item, one
      skipped decision per other item. */
  lemma ResultAccountsForAllItems(t: Tables, c: CampaignId)
    requires Inv(t) && c < |t.campaigns| && t.campaigns[c].status.Completed?
    ensures |RevokedItems(t, c)| + Count(|t.items|, NotRemediable(t, c)) == TotalItems(t, c) == t.campaigns[c].totalItems
  {
    hide Select, CountersFresh;
    RowIsRecounted(t, c);
    CountersAgree(t, c);
    CountSplits(|t.items|, OfCampaign(t, c), Remediable(t, c), NotRemediable(t, c), (i: nat) => false);
    NoneSelected(|t.items|, (i: nat) => false);
  }

  /** After any run, the result of remediating a completed campaign accounts for all its items. */
  lemma ReachedResultAccounts(requests: seq<Request>, c: CampaignId)
    requires Ready(RunWorld(EMPTY_WORLD, requests), c)
    ensures var t := RunWorld(EMPTY_WORLD, requests).tables;
            |RevokedItems(t, c)| + Count(|t.items|, NotRemediable(t, c)) == t.campaigns[c].totalItems
  {
    hide RunWorld, Inv, JobsFit, LinksFit, Count;
    RunKeepsWorld(requests);
    ResultAccountsForAllItems(RunWorld(EMPTY_WORLD, requests).tables, c);
  }

  /** Once remediated, a campaign of a reachable state never yields another job, whatever runs in between. */
  lemma ReachedRerunCreatesNothing(requests: seq<Request>, c: CampaignId, correlations: ItemId -> string, executions: ItemId -> Execution,
                                   between: seq<Request>, correlations': ItemId -> string, executions': ItemId -> Execution)
    requires Ready(RunWorld(EMPTY_WORLD, requests), c)
    ensures var later := RunWorld(RemediateStep(RunWorld(EMPTY_WORLD, requests), c, correlations, executions), between);
            RemediateStep(later, c, correlations', executions') == later
  {
    hide RunWorld, RemediateStep, WorldInv;
    RunKeepsWorld(requests);
    RerunCreatesNothing(RunWorld(EMPTY_WORLD, requests), c, correlations, executions, between, correlations', executions');
  }

  // ----- Links

  /** Over every run, jobs whose execution created a provisioning job are linked to exactly that job,
      and to pairwise different ones, whatever correlation ids they share. */
  lemma LinksAreOwn(requests: seq<Request>, j: nat, k: nat)
    requires var w := RunWorld(EMPTY_WORLD, requests);
             j < |w.jobs| && k < |w.jobs| && |w.own| == |w.jobs| && w.own[j].Some? && w.own[k].Some? && j != k
    ensures var w := RunWorld(EMPTY_WORLD, requests);
            && w.jobs[j].provisioningJob == w.own[j] && w.jobs[k].provisioningJob == w.own[k]
            && w.jobs[j].provisioningJob != w.jobs[k].provisioningJob
  {
    hide RunWorld, Inv, JobsFit;
    RunKeepsWorld(requests);
    var w := RunWorld(EMPTY_WORLD, requests);
    assert LinkFits(w.jobs[j], w.own[j], w.provisioning) && LinkFits(w.jobs[k], w.own[k], w.provisioning);
  }

  /** Over every run, every link points at an existing provisioning job with the correlation id of the
      remediation job. */
  lemma LinksPointHome(requests: seq<Request>, j: nat)
    requires var w := RunWorld(EMPTY_WORLD, requests); j < |w.jobs| && w.jobs[j].provisioningJob.Some?
    ensures var w := RunWorld(EMPTY_WORLD, requests);
            var link := w.jobs[j].provisioningJob.value;
            link < |w.provisioning| && w.provisioning[link] == w.jobs[j].correlation
  {
    hide RunWorld, Inv, JobsFit;
    RunKeepsWorld(requests);
    var w := RunWorld(EMPTY_WORLD, requests);
    assert LinkFits(w.jobs[j], w.own[j], w.provisioning);
  }

  /** Over every run, two jobs share a link only if they share the correlation id and the later one
      failed before a provisioning job was created for it. */
  lemma SharedLinkMeansEarlyFailure(requests: seq<Request>, j: nat, k: nat)
    requires var w := RunWorld(EMPTY_WORLD, requests);
             j < k < |w.jobs| && w.jobs[j].provisioningJob.Some? && w.jobs[j].provisioningJob == w.jobs[k].provisioningJob
    ensures var w := RunWorld(EMPTY_WORLD, requests);
            && |w.own| == |w.jobs| && w.own[k].None? && w.jobs[k].status.Failed?
            && w.jobs[j].correlation == w.jobs[k].correlation
  {
    hide RunWorld, Inv, JobsFit;
    RunKeepsWorld(requests);
    var w := RunWorld(EMPTY_WORLD, requests);
    assert LinkFits(w.jobs[j], w.own[j], w.provisioning) && LinkFits(w.jobs[k], w.own[k], w.provisioning);
  }
}
