/** Which provisioning job a remediation job is linked to, item by item of one request. */
module RemediationLinks {
  import opened Prelude
  import opened Certification
  import opened Remediation
  import Connectors

  /** Remediating the item makes a new job whose execution creates a provisioning job. */
  predicate Creates(jobs: seq<Job>, i: ItemId, executions: ItemId -> Execution) {
    !HasJob(jobs, i) && CreatesJob(executions(i))
  }

  /** The correlation ids of the provisioning jobs that the items create, in order. */
  function Created(jobs: seq<Job>, items: seq<ItemId>, correlations: ItemId -> string, executions: ItemId -> Execution): seq<string> {
    if items == [] then []
    else
      var n := |items| - 1;
      Created(jobs, items[..n], correlations, executions) + if Creates(jobs, items[n], executions) then [correlations(items[n])] else []
  }

  lemma {:induction false} CreatedMembers(jobs: seq<Job>, items: seq<ItemId>, correlations: ItemId -> string,
                                          executions: ItemId -> Execution, correlation: string)
    ensures correlation in Created(jobs, items, correlations, executions) <==>
      exists l :: 0 <= l < |items| && Creates(jobs, items[l], executions) && correlations(items[l]) == correlation
    decreases |items|
  {
    hide Creates;
    if items == [] {
    } else {
      var n := |items| - 1;
      CreatedMembers(jobs, items[..n], correlations, executions, correlation);
      if l :| 0 <= l < n && Creates(jobs, items[l], executions) && correlations(items[l]) == correlation {
        assert items[..n][l] == items[l];
      }
      if l :| 0 <= l < n && Creates(jobs, items[..n][l], executions) && correlations(items[..n][l]) == correlation {
        assert items[..n][l] == items[l];
      }
    }
  }

  lemma {:induction false} CreatedAppend(jobs: seq<Job>, a: seq<ItemId>, b: seq<ItemId>, correlations: ItemId -> string, executions: ItemId -> Execution)
    ensures Created(jobs, a + b, correlations, executions) ==
            Created(jobs, a, correlations, executions) + Created(jobs, b, correlations, executions)
    decreases |b|
  {
    if b == [] {
      assert a + b == a;
    } else {
      var n := |b| - 1;
      assert (a + b)[..|a| + n] == a + b[..n];
      CreatedAppend(jobs, a, b[..n], correlations, executions);
    }
  }

  /** Running distinct items: the provisioning table grows by what they create, and an item has a job
      exactly when it had one or is listed. */
  lemma {:induction false} RunItemsCreates(w: World, items: seq<ItemId>, correlations: ItemId -> string, executions: ItemId -> Execution)
    requires Listed(w.tables, items) && Distinct(items)
    ensures var w' := RunItems(w, items, correlations, executions);
            && w'.tables == w.tables && w.jobs <= w'.jobs
            && w'.provisioning == w.provisioning + Created(w.jobs, items, correlations, executions)
            && forall i :: HasJob(w'.jobs, i) <==> HasJob(w.jobs, i) || i in items
    decreases |items|
  {
    hide HasJob, RunItems;
    if items == [] {
      RunNone(w, items, correlations, executions);
      assert w.provisioning + [] == w.provisioning;
    } else {
      var n := |items| - 1;
      var i := items[n];
      assert items == items[..n] + [i];
      ListedLast(w.tables, items);
      RunItemsCreates(w, items[..n], correlations, executions);
      RunItemsAppend(w, items[..n], i, correlations, executions);
      var before := RunItems(w, items[..n], correlations, executions);
      if !HasJob(before.jobs, i) {
        RunJobAdds(before, i, correlations(i), executions(i));
      }
    }
  }

  lemma ListedLast(t: Tables, items: seq<ItemId>)
    requires Listed(t, items) && items != []
    ensures Listed(t, items[..|items| - 1]) && items[|items| - 1] < |t.items|
  {
    var n := |items| - 1;
    forall x | x in items[..n] ensures x < |t.items| {
      assert x in items;
    }
    assert items[n] in items;
  }

  lemma RunNone(w: World, items: seq<ItemId>, correlations: ItemId -> string, executions: ItemId -> Execution)
    requires items == []
    ensures RunItems(w, items, correlations, executions) == w
  {
  }

  lemma RunJobAdds(w: World, i: ItemId, correlation: string, e: Execution)
    requires i < |w.tables.items|
    ensures var w' := RunJob(w, i, correlation, e);
            && w'.tables == w.tables && w.jobs <= w'.jobs && |w'.jobs| == |w.jobs| + 1
            && w'.provisioning == w.provisioning + (if CreatesJob(e) then [correlation] else [])
            && w'.jobs[|w.jobs|] == Job(i, w.tables.items[i].campaign, correlation, KindFor(w.tables.items[i]), StatusAfter(e),
                                        Latest(w'.provisioning, correlation))
            && forall x :: HasJob(w'.jobs, x) <==> HasJob(w.jobs, x) || x == i
  {
    hide Latest;
    var w' := RunJob(w, i, correlation, e);
    assert w.provisioning + [] == w.provisioning;
    assert w'.jobs[|w.jobs|].item == i;
    forall x ensures HasJob(w'.jobs, x) <==> HasJob(w.jobs, x) || x == i {
      if HasJob(w.jobs, x) {
        MoreJobs(w.jobs, w'.jobs, x);
      }
    }
  }

  /** The new job of the item at position `m`: its link is the newest provisioning job with its
      correlation id among those of before and those created up to and including that item. */
  lemma {:induction false} NewJobOf(w: World, items: seq<ItemId>, m: nat, correlations: ItemId -> string, executions: ItemId -> Execution)
    returns (k: nat)
    requires Listed(w.tables, items) && Distinct(items) && m < |items| && !HasJob(w.jobs, items[m])
    ensures items[m] in items
    ensures var jobs := RunItems(w, items, correlations, executions).jobs;
            && |w.jobs| <= k < |jobs| && jobs[k].item == items[m] && jobs[k].correlation == correlations(items[m])
            && jobs[k].status == StatusAfter(executions(items[m]))
            && jobs[k].campaign == w.tables.items[items[m]].campaign && jobs[k].kind == KindFor(w.tables.items[items[m]])
            && jobs[k].provisioningJob ==
                 Latest(w.provisioning + Created(w.jobs, items[..m + 1], correlations, executions), correlations(items[m]))
    decreases |items|
  {
    hide HasJob, RunItems, Created, Latest, Creates, KindFor;
    forall x | x in items ensures x < |w.tables.items| {}
    assert items[m] in items;
    var n := |items| - 1;
    var i := items[n];
    assert items == items[..n] + [i];
    ListedLast(w.tables, items);
    RunItemsCreates(w, items[..n], correlations, executions);
    RunItemsCreates(w, items, correlations, executions);
    RunItemsAppend(w, items[..n], i, correlations, executions);
    var before := RunItems(w, items[..n], correlations, executions);
    if m == n {
      RunJobAdds(before, i, correlations(i), executions(i));
      k := |before.jobs|;
      assert items[..m + 1] == items;
    } else {
      k := NewJobOf(w, items[..n], m, correlations, executions);
      assert items[..n][..m + 1] == items[..m + 1];
      if !HasJob(before.jobs, i) {
        RunJobAdds(before, i, correlations(i), executions(i));
      }
    }
  }

  /** Position `m` of the items that remediating campaign `c` goes through gets a new job. */
  ghost predicate NewAt(w: World, c: CampaignId, m: nat) {
    Ready(w, c) && m < |RevokedItems(w.tables, c)| && !HasJob(w.jobs, RevokedItems(w.tables, c)[m])
  }

  lemma RevokedItemsDistinct(t: Tables, c: CampaignId)
    ensures Listed(t, RevokedItems(t, c)) && Distinct(RevokedItems(t, c))
  {
    SelectMembers(|t.items|, Remediable(t, c));
  }

  /** After any run, for every item that gets a job, whatever else the request remediates: when the job
      fails before its provisioning job exists, it has no link exactly when neither an earlier request
      nor an earlier item of this one created a provisioning job with its correlation id, and otherwise
      it is linked to the newest such job. */
  lemma EarlyFailureLink(requests: seq<Request>, c: CampaignId, m: nat, correlations: ItemId -> string, executions: ItemId -> Execution)
    returns (k: nat)
    requires NewAt(RunWorld(EMPTY_WORLD, requests), c, m)
    requires executions(RevokedItems(RunWorld(EMPTY_WORLD, requests).tables, c)[m]) == RaisedEarly
    ensures var w := RunWorld(EMPTY_WORLD, requests);
            var items := RevokedItems(w.tables, c);
            var jobs := RemediateStep(w, c, correlations, executions).jobs;
            && |w.jobs| <= k < |jobs| && jobs[k].item == items[m] && jobs[k].status == Failed
            && jobs[k].provisioningJob ==
                 Latest(w.provisioning + Created(w.jobs, items[..m], correlations, executions), correlations(items[m]))
            && (jobs[k].provisioningJob == None <==>
                  && correlations(items[m]) !in w.provisioning
                  && !exists l :: 0 <= l < m && Creates(w.jobs, items[l], executions) && correlations(items[l]) == correlations(items[m]))
  {
    hide RunWorld, RevokedItems, RunItems, Creates, Latest;
    var w := RunWorld(EMPTY_WORLD, requests);
    var items := RevokedItems(w.tables, c);
    RevokedItemsDistinct(w.tables, c);
    k := NewJobOf(w, items, m, correlations, executions);
    NothingCreated(w.jobs, items, m, correlations, executions);
    CreatedMembers(w.jobs, items[..m], correlations, executions, correlations(items[m]));
    var created := Created(w.jobs, items[..m], correlations, executions);
    if l :| 0 <= l < m && Creates(w.jobs, items[l], executions) && correlations(items[l]) == correlations(items[m]) {
      assert items[..m][l] == items[l];
    }
    if l :| 0 <= l < m && Creates(w.jobs, items[..m][l], executions) && correlations(items[..m][l]) == correlations(items[m]) {
      assert items[..m][l] == items[l];
    }
  }

  lemma NothingCreated(jobs: seq<Job>, items: seq<ItemId>, m: nat, correlations: ItemId -> string, executions: ItemId -> Execution)
    requires m < |items| && !CreatesJob(executions(items[m]))
    ensures Created(jobs, items[..m + 1], correlations, executions) == Created(jobs, items[..m], correlations, executions)
  {
    assert items[..m + 1][..m] == items[..m];
  }

  /** The provisioning table before item `m`, around the job that item `l` created. */
  lemma CreatedAround(w: World, items: seq<ItemId>, l: nat, m: nat, correlations: ItemId -> string, executions: ItemId -> Execution)
    requires l < m < |items| && Creates(w.jobs, items[l], executions) && !CreatesJob(executions(items[m]))
    ensures var earlier := w.provisioning + Created(w.jobs, items[..l], correlations, executions);
            var between := Created(w.jobs, items[l + 1..m], correlations, executions);
            && w.provisioning + Created(w.jobs, items[..l + 1], correlations, executions) == earlier + [correlations(items[l])]
            && w.provisioning + Created(w.jobs, items[..m + 1], correlations, executions) == earlier + [correlations(items[l])] + between
  {
    NothingCreated(w.jobs, items, m, correlations, executions);
    OneCreated(w.jobs, items, l, correlations, executions);
    hide Created, Creates;
    assert items[..m] == items[..l + 1] + items[l + 1..m];
    CreatedAppend(w.jobs, items[..l + 1], items[l + 1..m], correlations, executions);
    var earlier := w.provisioning + Created(w.jobs, items[..l], correlations, executions);
    assert w.provisioning + Created(w.jobs, items[..l + 1], correlations, executions) == earlier + [correlations(items[l])];
  }

  /** Item `l` creates a provisioning job, the later item `m` fails early; their links agree exactly
      when the correlation ids do and no item between them created a provisioning job with that id. */
  lemma SharesLinkIn(w: World, items: seq<ItemId>, l: nat, m: nat, correlations: ItemId -> string, executions: ItemId -> Execution)
    returns (j: nat, k: nat)
    requires Listed(w.tables, items) && Distinct(items) && l < m < |items|
    requires Creates(w.jobs, items[l], executions) && !HasJob(w.jobs, items[m]) && executions(items[m]) == RaisedEarly
    ensures var jobs := RunItems(w, items, correlations, executions).jobs;
            && j < |jobs| && k < |jobs| && jobs[j].item == items[l] && jobs[k].item == items[m]
            && (jobs[j].provisioningJob == jobs[k].provisioningJob <==>
                  && correlations(items[l]) == correlations(items[m])
                  && !exists x :: l < x < m && Creates(w.jobs, items[x], executions) && correlations(items[x]) == correlations(items[m]))
  {
    j := NewJobOf(w, items, l, correlations, executions);
    k := NewJobOf(w, items, m, correlations, executions);
    CreatedAround(w, items, l, m, correlations, executions);
    BetweenMembers(w.jobs, items, l, m, correlations, executions);
    hide *;
    SameNewest(w.provisioning + Created(w.jobs, items[..l], correlations, executions), correlations(items[l]),
               Created(w.jobs, items[l + 1..m], correlations, executions), correlations(items[m]));
  }

  /** Within one request after any run, a job that failed early shares the link of an earlier item's
      job exactly when they share the correlation id and no item between them created a provisioning
      job with it. */
  lemma SharesLinkIff(requests: seq<Request>, c: CampaignId, l: nat, m: nat, correlations: ItemId -> string, executions: ItemId -> Execution)
    returns (j: nat, k: nat)
    requires l < m && NewAt(RunWorld(EMPTY_WORLD, requests), c, l) && NewAt(RunWorld(EMPTY_WORLD, requests), c, m)
    requires var items := RevokedItems(RunWorld(EMPTY_WORLD, requests).tables, c);
             CreatesJob(executions(items[l])) && executions(items[m]) == RaisedEarly
    ensures var w := RunWorld(EMPTY_WORLD, requests);
            var items := RevokedItems(w.tables, c);
            var jobs := RemediateStep(w, c, correlations, executions).jobs;
            && j < |jobs| && k < |jobs| && jobs[j].item == items[l] && jobs[k].item == items[m]
            && (jobs[j].provisioningJob == jobs[k].provisioningJob <==>
                  && correlations(items[l]) == correlations(items[m])
                  && !exists x :: l < x < m && Creates(w.jobs, items[x], executions) && correlations(items[x]) == correlations(items[m]))
  {
    hide RunWorld, RevokedItems, RunItems, HasJob;
    var w := RunWorld(EMPTY_WORLD, requests);
    RevokedItemsDistinct(w.tables, c);
    j, k := SharesLinkIn(w, RevokedItems(w.tables, c), l, m, correlations, executions);
  }

  lemma OneCreated(jobs: seq<Job>, items: seq<ItemId>, l: nat, correlations: ItemId -> string, executions: ItemId -> Execution)
    requires l < |items| && !HasJob(jobs, items[l]) && CreatesJob(executions(items[l]))
    ensures Created(jobs, items[..l + 1], correlations, executions) ==
            Created(jobs, items[..l], correlations, executions) + [correlations(items[l])]
  {
    assert items[..l + 1][..l] == items[..l];
  }

  lemma BetweenMembers(jobs: seq<Job>, items: seq<ItemId>, l: nat, m: nat, correlations: ItemId -> string, executions: ItemId -> Execution)
    requires l < m < |items|
    ensures correlations(items[m]) in Created(jobs, items[l + 1..m], correlations, executions) <==>
      exists x :: l < x < m && Creates(jobs, items[x], executions) && correlations(items[x]) == correlations(items[m])
  {
    hide Creates, Created;
    var part := items[l + 1..m];
    CreatedMembers(jobs, part, correlations, executions, correlations(items[m]));
    if y :| 0 <= y < |part| && Creates(jobs, part[y], executions) && correlations(part[y]) == correlations(items[m]) {
      assert items[l + 1 + y] == part[y];
    }
    if x :| l < x < m && Creates(jobs, items[x], executions) && correlations(items[x]) == correlations(items[m]) {
      assert part[x - l - 1] == items[x];
    }
  }

  /** The newest job with `a` when it has just been added stays the newest one with `b` exactly when
      the two ids agree and nothing later carries it. */
  lemma SameNewest(earlier: seq<string>, a: string, between: seq<string>, b: string)
    ensures Latest(earlier + [a], a) == Latest(earlier + [a] + between, b) <==> a == b && b !in between
  {
    LatestIsNewest(earlier, a);
    var all := earlier + [a] + between;
    assert all[|earlier|] == a;
    assert forall k :: |earlier| < k < |all| ==> all[k] == between[k - |earlier| - 1];
    assert forall k :: 0 <= k < |between| ==> all[|earlier| + 1 + k] == between[k];
    var newest := Latest(all, b);
    if a == b && b !in between {
      assert b in all;
    }
    if b in between {
      var k :| 0 <= k < |between| && between[k] == b;
      assert newest != Some(|earlier|);
    }
  }

  /** Remediating two revoked items under one correlation id, the first with a result and the second
      failing early, links both jobs to the provisioning job of the first. */
  lemma EarlyFailureSharesLink(w: World, c: CampaignId, i: ItemId, j: ItemId, correlation: string,
                               status: Connectors.Status, executions: ItemId -> Execution)
    requires Ready(w, c) && RevokedItems(w.tables, c) == [i, j] && i != j && i < |w.tables.items| && j < |w.tables.items|
    requires !HasJob(w.jobs, i) && !HasJob(w.jobs, j)
    requires executions(i) == Finished(status) && executions(j) == RaisedEarly
    ensures var after := RemediateStep(w, c, x => correlation, executions);
            var jobs := after.jobs;
            && after.tables == w.tables && after.provisioning == w.provisioning + [correlation]
            && |jobs| == |w.jobs| + 2 && jobs[|w.jobs|].item == i && jobs[|w.jobs| + 1].item == j
            && jobs[|w.jobs| + 1].status == Failed
            && jobs[|w.jobs|].provisioningJob == jobs[|w.jobs| + 1].provisioningJob == Some(|w.provisioning|)
  {
    hide RevokedItems;
    var correlations: ItemId -> string := x => correlation;
    var first := RunJob(w, i, correlation, executions(i));
    var second := RunJob(first, j, correlation, executions(j));
    LatestIsNewest(w.provisioning, correlation);
    assert !HasJob(first.jobs, j);
    assert [i, j][1..] == [j] && [j][1..] == [];
    assert RunItems(first, [j], correlations, executions) == RunItems(second, [], correlations, executions) == second;
    assert RunItems(w, [i, j], correlations, executions) == RunItems(first, [j], correlations, executions);
  }

  // ----- A run that ends with a shared link

  lemma RunAppend(w: World, requests: seq<Request>, r: Request)
    ensures RunWorld(w, requests + [r]) == StepWorld(RunWorld(w, requests), r)
  {
    assert (requests + [r])[..|requests|] == requests;
  }

  /** The items and decisions of a campaign over two assignments, of which the first `n` are revoked. */
  function TwoItems(reviewer: UserId, a: Assignment, b: Assignment, n: nat): seq<Item> {
    [Item(0, a, None, reviewer, n > 0), Item(0, b, None, reviewer, n > 1)]
  }

  function RevokedSoFar(reviewer: UserId, n: nat): map<ItemId, Decision> {
    if n == 0 then map[] else RevokedSoFar(reviewer, n - 1)[n - 1 := Decision(0, reviewer, Revoke)]
  }

  ghost predicate Reviewing(t: Tables, reviewer: UserId, a: Assignment, b: Assignment, n: nat) {
    && |t.campaigns| == 1 && t.campaigns[0].status.Active? && t.items == TwoItems(reviewer, a, b, n)
    && t.decisions == RevokedSoFar(reviewer, n)
  }

  lemma StartedReview(reviewer: UserId, a: Assignment, b: Assignment)
    ensures Reviewing(Step(Step(EMPTY, Create("access review", reviewer, true)).0, Start(0, [a, b])).0, reviewer, a, b, 0)
  {
    hide Recounted;
    var t := Step(EMPTY, Create("access review", reviewer, true)).0;
    assert TotalItems(t, 0) == 0;
    assert Snapshot(0, reviewer, [a, b]) == TwoItems(reviewer, a, b, 0);
  }

  lemma OneMoreRevoked(t: Tables, reviewer: UserId, a: Assignment, b: Assignment, n: nat)
    requires n < 2 && Reviewing(t, reviewer, a, b, n)
    ensures Reviewing(Step(t, Decide(n, Revoke, reviewer)).0, reviewer, a, b, n + 1)
  {
    hide TotalItems, CompletedItems, Decisions;
    assert TwoItems(reviewer, a, b, n)[n := Item(0, if n == 0 then a else b, None, reviewer, true)] == TwoItems(reviewer, a, b, n + 1);
  }

  lemma CompletedReview(t: Tables, reviewer: UserId, a: Assignment, b: Assignment)
    requires Reviewing(t, reviewer, a, b, 2)
    ensures var t' := Step(t, Complete(0)).0;
            && |t'.campaigns| == 1 && t'.campaigns[0].status.Completed?
            && t'.items == t.items && RevokedItems(t', 0) == [0, 1]
  {
    hide Recounted;
    var t' := Step(t, Complete(0)).0;
    var revoked := Decision(0, reviewer, Revoke);
    assert RevokedSoFar(reviewer, 0) == map[];
    assert RevokedSoFar(reviewer, 1) == RevokedSoFar(reviewer, 0)[0 := revoked];
    assert RevokedSoFar(reviewer, 2) == RevokedSoFar(reviewer, 1)[1 := revoked];
  }

  /** A run that creates, starts and decides a campaign over the two assignments and completes it. */
  lemma TwoRevokedAreReached(reviewer: UserId, a: Assignment, b: Assignment) returns (requests: seq<Request>)
    ensures var w := RunWorld(EMPTY_WORLD, requests);
            && w.jobs == [] && w.provisioning == []
            && Ready(w, 0) && w.tables.items == TwoItems(reviewer, a, b, 2) && RevokedItems(w.tables, 0) == [0, 1]
  {
    hide Step, Reviewing, RevokedItems, RunWorld;
    var actions := [Create("access review", reviewer, true), Start(0, [a, b]), Decide(0, Revoke, reviewer), Decide(1, Revoke, reviewer), Complete(0)];
    requests := [];
    var t := EMPTY;
    StartRun();
    for n := 0 to 5
      invariant RunWorld(EMPTY_WORLD, requests) == World(t, [], [], [])
      invariant n == 1 ==> t == Step(EMPTY, Create("access review", reviewer, true)).0
      invariant 2 <= n < 5 ==> Reviewing(t, reviewer, a, b, n - 2)
      invariant n == 0 ==> t == EMPTY
      invariant n == 5 ==> Ready(World(t, [], [], []), 0) && t.items == TwoItems(reviewer, a, b, 2) && RevokedItems(t, 0) == [0, 1]
    {
      StartedReview(reviewer, a, b);
      if 2 <= n < 4 {
        OneMoreRevoked(t, reviewer, a, b, n - 2);
      } else if n == 4 {
        CompletedReview(t, reviewer, a, b);
        ReviewedItems(t, reviewer, a, b);
      }
      RunAppend(EMPTY_WORLD, requests, Govern(actions[n]));
      requests := requests + [Govern(actions[n])];
      t := Step(t, actions[n]).0;
    }
  }

  lemma StartRun()
    ensures RunWorld(EMPTY_WORLD, []) == World(EMPTY, [], [], [])
  {
  }

  lemma ReviewedItems(t: Tables, reviewer: UserId, a: Assignment, b: Assignment)
    requires Reviewing(t, reviewer, a, b, 2)
    ensures t.items == TwoItems(reviewer, a, b, 2)
  {
  }

  /** From empty tables: remediating such a campaign, with the second item's application lacking a
      connector, ends with two jobs of different items linked to one provisioning job. */
  lemma SharedLinkIsReached(reviewer: UserId, a: Assignment, b: Assignment, correlation: string, status: Connectors.Status)
    returns (requests: seq<Request>, executions: ItemId -> Execution)
    ensures executions(0) == Finished(status) && executions(1) == RaisedEarly
    ensures var w := RunWorld(EMPTY_WORLD, requests + [Remediate(0, x => correlation, executions)]);
            && |w.jobs| == 2 && w.jobs[0].item == 0 && w.jobs[1].item == 1
            && w.tables.items == TwoItems(reviewer, a, b, 2)
            && w.provisioning == [correlation]
            && w.jobs[0].provisioningJob == w.jobs[1].provisioningJob == Some(0)
  {
    hide RunWorld, RevokedItems;
    requests := TwoRevokedAreReached(reviewer, a, b);
    executions := x => if x == 0 then Finished(status) else RaisedEarly;
    var w := RunWorld(EMPTY_WORLD, requests);
    var correlations: ItemId -> string := x => correlation;
    RunAppend(EMPTY_WORLD, requests, Remediate(0, x => correlation, executions));
    EarlyFailureSharesLink(w, 0, 0, 1, correlation, status, executions);
  }
}
