/** Provisioning jobs: the job service, and the orchestrator's retry loop over a connector. */
module Provisioning {
  import opened Prelude
  import opened RetryPolicies
  import opened Connectors

  datatype JobStatus = Pending | Running | Ended(status: Status)

  datatype Job = Job(correlation: string, operation: Operation, status: JobStatus, attemptCount: nat, retryCount: nat,
                     maxAttempts: int, retryable: bool, lastError: Option<string>)

  datatype EventKind =
    | JobCreated | JobStarted | ConnectorInvocation | RetryRecorded(nextAttempt: nat, delay: int)
    | ConnectorResult | JobCompleted | JobFailed

  datatype HistoryEntry = HistoryEntry(job: nat, kind: EventKind, status: JobStatus, attempt: nat, retryable: bool)

  datatype ResultRow = ResultRow(status: Status, retryable: bool, message: string)

  // ----- What a run must look like

  predicate WillRetry(p: Policy, reply: Reply, attempt: nat) {
    reply.Raised? && (reply.typed || reply.flagged) && attempt < p.maxAttempts
  }

  /** The attempt that ends the run: the first one that is not retried. */
  function LastAttempt(p: Policy, script: Script, attempt: nat): (n: nat)
    ensures n >= attempt && !WillRetry(p, script(n), n)
    ensures forall i :: attempt <= i < n ==> WillRetry(p, script(i), i)
    decreases p.maxAttempts - attempt
  {
    if WillRetry(p, script(attempt), attempt) then LastAttempt(p, script, attempt + 1) else attempt
  }

  /** The result of the last attempt; an exception becomes a failure that is retryable when flagged. */
  function ResultOf(reply: Reply): ResultRow {
    match reply
    case Returned(status, retryable, message) => ResultRow(status, retryable, message)
    case Raised(_, flagged, message) => ResultRow(if flagged then Retryable else Failed, flagged, message)
  }

  /** Entry `k` of the history of a job that ends with attempt `n`: created, then started and invoked
      per attempt with a retry entry between attempts, then the result and the closing entry. */
  function TraceEntry(job: nat, p: Policy, reply: Reply, n: nat, k: nat): HistoryEntry {
    var end := ResultOf(reply);
    if k == 0 then HistoryEntry(job, JobCreated, Pending, 0, false)
    else if k == 3 * n then HistoryEntry(job, ConnectorResult, Ended(end.status), n, end.retryable)
    else if k == 3 * n + 1 then
      HistoryEntry(job, if reply.Returned? then JobCompleted else JobFailed, Ended(end.status), n, end.retryable)
    else
      var a := (k - 1) / 3 + 1;
      if k % 3 == 1 then HistoryEntry(job, JobStarted, Running, a, false)
      else if k % 3 == 2 then HistoryEntry(job, ConnectorInvocation, Running, a, false)
      else HistoryEntry(job, RetryRecorded(a + 1, NextDelay(p, a)), Ended(Retryable), a, true)
  }

  function Trace(job: nat, p: Policy, reply: Reply, n: nat, len: nat): seq<HistoryEntry> {
    seq(len, k requires 0 <= k < len => TraceEntry(job, p, reply, n, k))
  }

  function FinalJob(correlation: string, operation: Operation, p: Policy, reply: Reply, n: nat): Job
    requires n >= 1
  {
    var end := ResultOf(reply);
    Job(correlation, operation, Ended(end.status), n, n - 1, p.maxAttempts, end.retryable,
        if reply.Returned? then None else Some(end.message))
  }

  // ----- The same, entry by entry and field by field

  /** Attempt `n` ends the run: every earlier one raised a retryable error, and this one did not, or no
      attempt is left. */
  ghost predicate EndsAt(p: Policy, script: Script, n: nat) {
    && 1 <= n <= p.maxAttempts
    && (forall i :: 1 <= i < n ==> script(i).Raised? && (script(i).typed || script(i).flagged))
    && (n == p.maxAttempts || script(n).Returned? || (!script(n).typed && !script(n).flagged))
  }

  /** What the last reply makes of the result and the job row: a returned result is passed on, an
      exception fails, retryably when it carries the flag. */
  predicate Concludes(reply: Reply, n: nat, result: ResultRow, job: Job) {
    && (match reply
        case Returned(status, retryable, message) =>
          result.status == status && result.retryable == retryable && result.message == message && job.lastError == None
        case Raised(_, flagged, message) =>
          && result.status == (if flagged then Retryable else Failed)
          && result.retryable == flagged && result.message == message && job.lastError == Some(message))
    && job.status == Ended(result.status) && job.retryable == result.retryable
    && job.attemptCount == n && job.retryCount + 1 == n
  }

  /** The history of one run, entry by entry. */
  ghost predicate Tells(entries: seq<HistoryEntry>, job: nat, p: Policy, reply: Reply, n: nat, result: ResultRow) {
    && |entries| == 3 * n + 2
    && entries[0] == HistoryEntry(job, JobCreated, Pending, 0, false)
    && (forall a :: 1 <= a <= n ==>
          && entries[3 * a - 2] == HistoryEntry(job, JobStarted, Running, a, false)
          && entries[3 * a - 1] == HistoryEntry(job, ConnectorInvocation, Running, a, false))
    && (forall a :: 1 <= a < n ==>
          entries[3 * a] == HistoryEntry(job, RetryRecorded(a + 1, NextDelay(p, a)), Ended(Retryable), a, true))
    && entries[3 * n] == HistoryEntry(job, ConnectorResult, Ended(result.status), n, result.retryable)
    && entries[3 * n + 1] ==
         HistoryEntry(job, if reply.Returned? then JobCompleted else JobFailed, Ended(result.status), n, result.retryable)
  }

  lemma LastAttemptEnds(p: Policy, script: Script)
    requires ValidPolicy(p)
    ensures EndsAt(p, script, LastAttempt(p, script, 1))
  {
    LastAttemptInRange(p, script, 1);
  }

  lemma FinalJobConcludes(correlation: string, operation: Operation, p: Policy, reply: Reply, n: nat)
    requires n >= 1
    ensures Concludes(reply, n, ResultOf(reply), FinalJob(correlation, operation, p, reply, n))
  {
  }

  lemma TraceTells(job: nat, p: Policy, reply: Reply, n: nat)
    requires n >= 1
    ensures Tells(Trace(job, p, reply, n, 3 * n + 2), job, p, reply, n, ResultOf(reply))
  {
    hide TraceEntry, NextDelay, ResultOf;
    forall a | 1 <= a <= n
      ensures TraceEntry(job, p, reply, n, 3 * a - 2) == HistoryEntry(job, JobStarted, Running, a, false)
      ensures TraceEntry(job, p, reply, n, 3 * a - 1) == HistoryEntry(job, ConnectorInvocation, Running, a, false)
      ensures a < n ==>
        TraceEntry(job, p, reply, n, 3 * a) == HistoryEntry(job, RetryRecorded(a + 1, NextDelay(p, a)), Ended(Retryable), a, true)
    {
      EntriesOfAttempt(job, p, reply, n, a);
    }
    LastEntries(job, p, reply, n);
    FirstEntry(job, p, reply, n);
  }

  lemma FirstEntry(job: nat, p: Policy, reply: Reply, n: nat)
    ensures n >= 1 ==> TraceEntry(job, p, reply, n, 0) == HistoryEntry(job, JobCreated, Pending, 0, false)
  {
  }

  // ----- The job service

  class JobService {
    var jobs: seq<Job>
    var history: seq<HistoryEntry>

    constructor ()
      ensures jobs == [] && history == []
    {
      jobs, history := [], [];
    }

    method RecordHistory(job: nat, kind: EventKind, status: JobStatus, attempt: nat, retryable: bool)
      modifies this`history
      ensures history == old(history) + [HistoryEntry(job, kind, status, attempt, retryable)]
    {
      history := history + [HistoryEntry(job, kind, status, attempt, retryable)];
    }

    method CreateJob(correlation: string, operation: Operation, maxAttempts: int) returns (job: nat)
      modifies this
      ensures job == |old(jobs)|
      ensures jobs == old(jobs) + [Job(correlation, operation, Pending, 0, 0, maxAttempts, false, None)]
      ensures history == old(history) + [HistoryEntry(job, JobCreated, Pending, 0, false)]
    {
      job := |jobs|;
      jobs := jobs + [Job(correlation, operation, Pending, 0, 0, maxAttempts, false, None)];
      RecordHistory(job, JobCreated, Pending, 0, false);
    }

    method StartJob(job: nat, attempt: nat)
      requires job < |jobs|
      modifies this
      ensures jobs == old(jobs)[job := old(jobs)[job].(status := Running, attemptCount := Max(old(jobs)[job].attemptCount, attempt))]
      ensures history == old(history) + [HistoryEntry(job, JobStarted, Running, attempt, false)]
    {
      jobs := jobs[job := jobs[job].(status := Running, attemptCount := Max(jobs[job].attemptCount, attempt))];
      RecordHistory(job, JobStarted, Running, attempt, false);
    }

    method RecordRetry(job: nat, attempt: nat, nextAttempt: nat, delay: int, reason: string)
      requires job < |jobs|
      modifies this
      ensures jobs == old(jobs)[job := old(jobs)[job].(retryCount := old(jobs)[job].retryCount + 1,
        attemptCount := Max(old(jobs)[job].attemptCount, attempt), retryable := true, lastError := Some(reason))]
      ensures history == old(history) + [HistoryEntry(job, RetryRecorded(nextAttempt, delay), Ended(Retryable), attempt, true)]
    {
      jobs := jobs[job := jobs[job].(retryCount := jobs[job].retryCount + 1,
                                     attemptCount := Max(jobs[job].attemptCount, attempt), retryable := true, lastError := Some(reason))];
      RecordHistory(job, RetryRecorded(nextAttempt, delay), Ended(Retryable), attempt, true);
    }

    /** complete_job and fail_job: the job row is closed and two entries are written. */
    method CloseJob(job: nat, end: ResultRow, attempt: nat, completed: bool)
      requires job < |jobs|
      modifies this
      ensures jobs == old(jobs)[job := old(jobs)[job].(status := Ended(end.status), retryable := end.retryable,
        attemptCount := Max(old(jobs)[job].attemptCount, attempt), lastError := if completed then None else Some(end.message))]
      ensures history == old(history) + [HistoryEntry(job, ConnectorResult, Ended(end.status), attempt, end.retryable),
        HistoryEntry(job, if completed then JobCompleted else JobFailed, Ended(end.status), attempt, end.retryable)]
    {
      jobs := jobs[job := jobs[job].(status := Ended(end.status), retryable := end.retryable,
                                     attemptCount := Max(jobs[job].attemptCount, attempt),
                                     lastError := if completed then None else Some(end.message))];
      RecordHistory(job, ConnectorResult, Ended(end.status), attempt, end.retryable);
      RecordHistory(job, if completed then JobCompleted else JobFailed, Ended(end.status), attempt, end.retryable);
    }
  }

  function Max(a: nat, b: nat): nat {
    if a >= b then a else b
  }

  // ----- The orchestrator

  /** What the orchestrator sees attempt by attempt: a payload that cannot be dispatched raises a
      validation error before the connector is reached. */
  function Seen(script: Script, dispatchable: bool): Script {
    (i: nat) => if dispatchable then script(i) else Raised(false, false, "invalid payload")
  }

  /** The script that remains after `made` calls. */
  ghost predicate Follows(rest: Script, start: Script, made: nat) {
    forall i: nat :: rest(i) == start(made + i)
  }

  /** One attempt is opened: the job is started and the invocation recorded. */
  method BeginAttempt(service: JobService, job: nat, attempt: nat, ghost earlier: seq<Job>, ghost j: Job)
    requires service.jobs == earlier + [j] && job == |earlier|
    modifies service
    ensures service.jobs == earlier + [j.(status := Running, attemptCount := Max(j.attemptCount, attempt))]
    ensures service.history == old(service.history) + [HistoryEntry(job, JobStarted, Running, attempt, false)]
                                                    + [HistoryEntry(job, ConnectorInvocation, Running, attempt, false)]
  {
    service.StartJob(job, attempt);
    service.RecordHistory(job, ConnectorInvocation, Running, attempt, false);
  }

  method CallConnector(connector: Connector, key: Key, dispatchable: bool, ghost start: Script, ghost made: nat) returns (reply: Reply)
    requires Follows(connector.Script(key), start, if dispatchable then made else 0)
    modifies connector
    ensures reply == Seen(start, dispatchable)(made + 1)
    ensures Follows(connector.Script(key), start, if dispatchable then made + 1 else 0)
    ensures connector.calls == old(connector.calls) + if dispatchable then 1 else 0
  {
    hide Follows, Advances, ScriptOf;
    if dispatchable {
      ghost var before := connector.Script(key);
      reply := connector.Call(key);
      FollowsNext(connector.Script(key), before, start, made);
    } else {
      reply := Raised(false, false, "invalid payload");
    }
  }

  /** The retry loop of one job. */
  method RunAttempts(service: JobService, connector: Connector, p: Policy, key: Key, dispatchable: bool, job: nat,
                     ghost start: Script, ghost n: nat) returns (result: ResultRow)
    requires ValidPolicy(p) && job < |service.jobs| && job + 1 == |service.jobs|
    requires Follows(connector.Script(key), start, 0)
    requires n == LastAttempt(p, Seen(start, dispatchable), 1)
    requires Underway(service.jobs[job], key.correlation, key.operation, p, 1)
    modifies service, connector
    ensures 1 <= n <= p.maxAttempts
    ensures var last := Seen(start, dispatchable)(n);
            && result == ResultOf(last)
            && service.jobs == old(service.jobs)[..job] + [FinalJob(key.correlation, key.operation, p, last, n)]
            && service.history == old(service.history) + Trace(job, p, last, n, 3 * n + 2)[1..]
            && connector.calls == old(connector.calls) + if dispatchable then n else 0
  {
    hide LastAttempt, Trace, TraceEntry, TraceBefore, NextDelay, ReplyOf, ResultOf, Follows, Seen;
    ghost var script := Seen(start, dispatchable);
    ghost var last := script(n);
    ghost var jobs0, j := service.jobs[..job], service.jobs[job];
    var attempt: nat := 1;
    TraceStart(job, p, last, n);
    while true
      invariant 1 <= attempt <= p.maxAttempts && attempt <= n
      invariant LastAttempt(p, script, attempt) == n
      invariant Follows(connector.Script(key), start, if dispatchable then attempt - 1 else 0)
      invariant connector.calls == old(connector.calls) + if dispatchable then attempt - 1 else 0
      invariant service.jobs == jobs0 + [j] && Underway(j, key.correlation, key.operation, p, attempt)
      invariant |TraceBefore(job, p, last, n, attempt)| >= 1
      invariant service.history == old(service.history) + TraceBefore(job, p, last, n, attempt)[1..]
      decreases p.maxAttempts - attempt
    {
      LastAttemptStep(p, script, attempt);
      TraceAttempt(job, p, last, n, attempt);
      BeginAttempt(service, job, attempt, jobs0, j);
      j := j.(status := Running, attemptCount := Max(j.attemptCount, attempt));
      var reply := CallConnector(connector, key, dispatchable, start, attempt - 1);
      if !WillRetry(p, reply, attempt) {
        result := ResultOf(reply);
        service.CloseJob(job, result, attempt, reply.Returned?);
        return;
      }
      service.RecordRetry(job, attempt, attempt + 1, NextDelay(p, attempt), reply.message);
      j := j.(retryCount := j.retryCount + 1, retryable := true, lastError := Some(reply.message));
      attempt := attempt + 1;
    }
  }

  /** One provisioning run: at most `maxAttempts` attempts, one new job row, and exactly the history
      its trace prescribes; earlier jobs and history are untouched. */
  method Execute(service: JobService, connector: Connector, p: Policy, operation: Operation,
                 payload: map<string, Value>, correlation: string) returns (result: ResultRow)
    requires ValidPolicy(p)
    modifies service, connector
    ensures var script := Seen(old(connector.Script(Key(operation, correlation))), Dispatchable(operation, payload));
            var n := LastAttempt(p, script, 1);
            && 1 <= n <= p.maxAttempts
            && result == ResultOf(script(n))
            && service.jobs == old(service.jobs) + [FinalJob(correlation, operation, p, script(n), n)]
            && service.history == old(service.history) + Trace(|old(service.jobs)|, p, script(n), n, 3 * n + 2)
            && connector.calls == old(connector.calls) + if Dispatchable(operation, payload) then n else 0
    ensures |service.jobs| == |old(service.jobs)| + 1 && |service.history| >= |old(service.history)|
    ensures var script := Seen(old(connector.Script(Key(operation, correlation))), Dispatchable(operation, payload));
            var job := |old(service.jobs)|;
            var n := service.jobs[job].attemptCount;
            && EndsAt(p, script, n)
            && Concludes(script(n), n, result, service.jobs[job])
            && Tells(service.history[|old(service.history)|..], job, p, script(n), n, result)
  {
    hide LastAttempt, NextDelay, ReplyOf, ResultOf, Dispatchable, Follows, Seen, EndsAt, Concludes, Tells, Trace, FinalJob;
    var key := Key(operation, correlation);
    var dispatchable := Dispatchable(operation, payload);
    ghost var start := connector.Script(key);
    ghost var n := LastAttempt(p, Seen(start, dispatchable), 1);
    FollowsItself(start);
    var job := service.CreateJob(correlation, operation, p.maxAttempts);
    result := RunAttempts(service, connector, p, key, dispatchable, job, start, n);
    RunMeans(job, correlation, operation, p, Seen(start, dispatchable), n);
    assert service.history[|old(service.history)|..] == Trace(job, p, Seen(start, dispatchable)(n), n, 3 * n + 2);
  }

  lemma RunMeans(job: nat, correlation: string, operation: Operation, p: Policy, script: Script, n: nat)
    requires ValidPolicy(p) && n == LastAttempt(p, script, 1)
    ensures var trace := Trace(job, p, script(n), n, 3 * n + 2);
            && EndsAt(p, script, n)
            && Concludes(script(n), n, ResultOf(script(n)), FinalJob(correlation, operation, p, script(n), n))
            && FinalJob(correlation, operation, p, script(n), n).attemptCount == n
            && Tells(trace, job, p, script(n), n, ResultOf(script(n)))
            && |trace| == 3 * n + 2 && trace == [HistoryEntry(job, JobCreated, Pending, 0, false)] + trace[1..]
  {
    hide LastAttempt, ResultOf, EndsAt, Concludes, Tells, TraceEntry;
    LastAttemptEnds(p, script);
    FinalJobConcludes(correlation, operation, p, script(n), n);
    TraceTells(job, p, script(n), n);
    FirstEntry(job, p, script(n), n);
  }

  lemma FollowsNext(after: Script, before: Script, start: Script, made: nat)
    requires Follows(before, start, made) && Advances(after, before)
    ensures before(1) == start(made + 1) && Follows(after, start, made + 1)
  {
    forall i: nat ensures after(i) == start(made + 1 + i) {
      assert after(i) == before(i + 1);
    }
  }

  lemma FollowsItself(start: Script)
    ensures Follows(start, start, 0)
  {
  }

  /** A job between attempts: its counters trail the attempt about to start. */
  predicate Underway(j: Job, correlation: string, operation: Operation, p: Policy, attempt: nat)
    requires attempt >= 1
  {
    && j.correlation == correlation && j.operation == operation && j.maxAttempts == p.maxAttempts
    && j.attemptCount == j.retryCount == attempt - 1
  }

  lemma LastAttemptStep(p: Policy, script: Script, attempt: nat)
    ensures var n := LastAttempt(p, script, attempt);
            if WillRetry(p, script(attempt), attempt) then n > attempt && LastAttempt(p, script, attempt + 1) == n
            else n == attempt
  {
  }

  /** The history when attempt `a` is about to start. */
  function TraceBefore(job: nat, p: Policy, reply: Reply, n: nat, a: nat): seq<HistoryEntry>
    requires a >= 1
  {
    Trace(job, p, reply, n, 3 * a - 2)
  }

  lemma TraceStart(job: nat, p: Policy, reply: Reply, n: nat)
    ensures TraceBefore(job, p, reply, n, 1) == [HistoryEntry(job, JobCreated, Pending, 0, false)]
  {
  }

  /** Where the entries of attempt `a` stand in the history. */
  lemma EntriesOfAttempt(job: nat, p: Policy, reply: Reply, n: nat, a: nat)
    requires 1 <= a <= n
    ensures TraceEntry(job, p, reply, n, 3 * a - 2) == HistoryEntry(job, JobStarted, Running, a, false)
    ensures TraceEntry(job, p, reply, n, 3 * a - 1) == HistoryEntry(job, ConnectorInvocation, Running, a, false)
    ensures a < n ==>
      TraceEntry(job, p, reply, n, 3 * a) == HistoryEntry(job, RetryRecorded(a + 1, NextDelay(p, a)), Ended(Retryable), a, true)
  {
    assert (3 * a - 3) / 3 + 1 == a && (3 * a - 2) / 3 + 1 == a && (3 * a - 1) / 3 + 1 == a;
    assert (3 * a - 2) % 3 == 1 && (3 * a - 1) % 3 == 2 && (3 * a) % 3 == 0;
  }

  lemma TraceGrows(job: nat, p: Policy, reply: Reply, n: nat, len: nat)
    ensures Trace(job, p, reply, n, len + 1) == Trace(job, p, reply, n, len) + [TraceEntry(job, p, reply, n, len)]
  {
    hide TraceEntry;
  }

  lemma LastEntries(job: nat, p: Policy, reply: Reply, n: nat)
    requires n >= 1
    ensures Closing(job, reply, n) == [TraceEntry(job, p, reply, n, 3 * n), TraceEntry(job, p, reply, n, 3 * n + 1)]
  {
  }

  /** The entries of one attempt: two, then a retry entry, or the closing pair after the last. */
  lemma TraceAttempt(job: nat, p: Policy, reply: Reply, n: nat, a: nat)
    requires 1 <= a <= n
    ensures var invoked := TraceBefore(job, p, reply, n, a) + [HistoryEntry(job, JobStarted, Running, a, false)]
                                                            + [HistoryEntry(job, ConnectorInvocation, Running, a, false)];
            if a < n then
              TraceBefore(job, p, reply, n, a + 1) ==
                invoked + [HistoryEntry(job, RetryRecorded(a + 1, NextDelay(p, a)), Ended(Retryable), a, true)]
            else
              Trace(job, p, reply, n, 3 * n + 2) == invoked + Closing(job, reply, n)
  {
    hide Trace, TraceEntry, NextDelay, Closing;
    EntriesOfAttempt(job, p, reply, n, a);
    TraceGrows(job, p, reply, n, 3 * a - 2);
    TraceGrows(job, p, reply, n, 3 * a - 1);
    TraceGrows(job, p, reply, n, 3 * a);
    if a == n {
      TraceGrows(job, p, reply, n, 3 * n + 1);
      LastEntries(job, p, reply, n);
    }
  }

  function Closing(job: nat, reply: Reply, n: nat): seq<HistoryEntry> {
    var end := ResultOf(reply);
    [HistoryEntry(job, ConnectorResult, Ended(end.status), n, end.retryable),
     HistoryEntry(job, if reply.Returned? then JobCompleted else JobFailed, Ended(end.status), n, end.retryable)]
  }

  // ----- Consequences

  /** With exception types that all carry the retryable flag and connectors that return only success
      or skipped, a job ends retryable exactly when a retryable error hit the last allowed attempt. */
  lemma RetryableIffExhausted(p: Policy, script: Script)
    requires ValidPolicy(p)
    requires forall i: nat :: script(i).Raised? && script(i).typed ==> script(i).flagged
    requires forall i: nat :: script(i).Returned? ==> script(i).status.Success? || script(i).status.Skipped?
    ensures var n := LastAttempt(p, script, 1);
            && 1 <= n <= p.maxAttempts
            && (ResultOf(script(n)).status.Retryable? <==> script(n).Raised? && script(n).flagged && n == p.maxAttempts)
  {
    LastAttemptInRange(p, script, 1);
  }

  lemma {:induction false} LastAttemptInRange(p: Policy, script: Script, attempt: nat)
    requires 1 <= attempt <= p.maxAttempts
    ensures LastAttempt(p, script, attempt) <= p.maxAttempts
    decreases p.maxAttempts - attempt
  {
    if !WillRetry(p, script(attempt), attempt) {
    } else {
      LastAttemptInRange(p, script, attempt + 1);
    }
  }

  /** The last attempt depends only on the replies from the first attempt on. */
  lemma {:induction false} SameRepliesSameEnd(p: Policy, script: Script, script': Script, attempt: nat)
    requires forall i: nat :: i >= attempt ==> script(i) == script'(i)
    ensures LastAttempt(p, script, attempt) == LastAttempt(p, script', attempt)
    decreases p.maxAttempts - attempt
  {
    if !WillRetry(p, script(attempt), attempt) {
    } else {
      SameRepliesSameEnd(p, script, script', attempt + 1);
    }
  }

  predicate RaisesRetryable(mode: Mode) {
    mode == Timeout || mode == RateLimit || mode == RetryableFailure || mode == Unavailable
  }

  predicate RaisesFinal(mode: Mode) {
    mode == ValidationFailure || mode == NonRetryableFailure
  }

  /** How a run over the mock ends, and at which attempt, for every configuration. */
  predicate MockEnds(p: Policy, cfg: MockConfig, operation: Operation, n: int, status: Status) {
    var k := cfg.failuresBeforeSuccess;
    if operation !in cfg.supported then n == 1 && status == Failed
    else if !cfg.enabled then n == 1 && status == Skipped
    else if k >= p.maxAttempts || RaisesRetryable(cfg.mode) then n == p.maxAttempts && status == Retryable
    else n == k + 1 && status == if RaisesFinal(cfg.mode) then Failed else Success
  }

  /** The replies of the mock, from a counter that is fresh for the key, end the run so. */
  lemma MockEndsSo(p: Policy, cfg: MockConfig, key: Key, attempts: map<Key, nat>, calls: nat, n: nat)
    requires ValidPolicy(p) && key !in attempts
    requires n == LastAttempt(p, ScriptOf(Mock(cfg), attempts, calls, key), 1)
    ensures MockEnds(p, cfg, key.operation, n, ResultOf(ScriptOf(Mock(cfg), attempts, calls, key)(n)).status)
  {
    var script := ScriptOf(Mock(cfg), attempts, calls, key);
    LastAttemptInRange(p, script, 1);
    assert forall i: nat :: script(i) == MockReply(cfg, key.operation, i);
    if Counts(cfg, key.operation) {
      if !RaisesRetryable(cfg.mode) {
        assert !WillRetry(p, script(cfg.failuresBeforeSuccess + 1), cfg.failuresBeforeSuccess + 1);
      }
    } else {
      assert !WillRetry(p, script(1), 1);
    }
  }

  /** One run of the orchestrator over the mock with a counter that is fresh for the key and a
      well-formed payload: how it ends, and that the connector is called once per attempt. In success
      mode with `k` initial failures it succeeds exactly when `k` is below the attempt limit, after
      min(k + 1, limit) calls. */
  method ExecuteOnMock(service: JobService, connector: Connector, p: Policy, operation: Operation,
                       payload: map<string, Value>, correlation: string) returns (result: ResultRow)
    requires ValidPolicy(p) && connector.behaviour.Mock? && Dispatchable(operation, payload)
    requires Key(operation, correlation) !in connector.attempts
    modifies service, connector
    ensures var n := connector.calls - old(connector.calls);
            && MockEnds(p, connector.behaviour.cfg, operation, n, result.status)
            && |service.jobs| == |old(service.jobs)| + 1
            && service.jobs[|old(service.jobs)|].attemptCount == n
            && service.jobs[|old(service.jobs)|].retryCount == n - 1
            && service.jobs[|old(service.jobs)|].status == Ended(result.status)
            && |service.history| == |old(service.history)| + 3 * n + 2
    ensures var cfg := connector.behaviour.cfg;
            Counts(cfg, operation) && cfg.mode.SuccessMode? ==>
              && (result.status.Success? <==> cfg.failuresBeforeSuccess < p.maxAttempts)
              && connector.calls == old(connector.calls) + Min(cfg.failuresBeforeSuccess + 1, p.maxAttempts)
  {
    hide LastAttempt, TraceEntry, MockReply, Dispatchable, EndsAt, Concludes, Tells;
    ghost var cfg, key := connector.behaviour.cfg, Key(operation, correlation);
    ghost var script := ScriptOf(connector.behaviour, connector.attempts, connector.calls, key);
    SameRepliesSameEnd(p, Seen(script, true), script, 1);
    MockEndsSo(p, cfg, key, connector.attempts, connector.calls, LastAttempt(p, script, 1));
    result := Execute(service, connector, p, operation, payload, correlation);
  }

  function DelaysIn(entries: seq<HistoryEntry>): int {
    if entries == [] then 0
    else
      var last := entries[|entries| - 1];
      DelaysIn(entries[..|entries| - 1]) + if last.kind.RetryRecorded? then last.kind.delay else 0
  }

  lemma DelaysAppend(entries: seq<HistoryEntry>, e: HistoryEntry)
    ensures DelaysIn(entries + [e]) == DelaysIn(entries) + if e.kind.RetryRecorded? then e.kind.delay else 0
  {
    assert (entries + [e])[..|entries|] == entries;
  }

  lemma DelaysOfAttempt(before: seq<HistoryEntry>, job: nat, a: nat)
    ensures DelaysIn(before + [HistoryEntry(job, JobStarted, Running, a, false)]
                            + [HistoryEntry(job, ConnectorInvocation, Running, a, false)]) == DelaysIn(before)
  {
    DelaysAppend(before, HistoryEntry(job, JobStarted, Running, a, false));
    DelaysAppend(before + [HistoryEntry(job, JobStarted, Running, a, false)], HistoryEntry(job, ConnectorInvocation, Running, a, false));
  }

  /** The retry entries before attempt `a` carry delays that sum to the policy's total. */
  lemma {:induction false} TraceDelays(job: nat, p: Policy, reply: Reply, n: nat, a: nat)
    requires 1 <= a <= n
    ensures DelaysIn(TraceBefore(job, p, reply, n, a)) == TotalDelay(p, a - 1)
    decreases a
  {
    hide Trace, TraceBefore, DelaysIn, NextDelay;
    TraceStart(job, p, reply, n);
    if a == 1 {
      DelaysAppend([], HistoryEntry(job, JobCreated, Pending, 0, false));
      assert [] + [HistoryEntry(job, JobCreated, Pending, 0, false)] == [HistoryEntry(job, JobCreated, Pending, 0, false)];
      NoDelays();
    } else {
      TraceDelays(job, p, reply, n, a - 1);
      TraceAttempt(job, p, reply, n, a - 1);
      var before := TraceBefore(job, p, reply, n, a - 1);
      DelaysOfAttempt(before, job, a - 1);
      DelaysAppend(before + [HistoryEntry(job, JobStarted, Running, a - 1, false)]
                          + [HistoryEntry(job, ConnectorInvocation, Running, a - 1, false)],
                   HistoryEntry(job, RetryRecorded(a, NextDelay(p, a - 1)), Ended(Retryable), a - 1, true));
    }
  }

  lemma NoDelays()
    ensures DelaysIn([]) == 0
  {
  }

  /** All delays recorded in the history of a run, bounded by the cap and the geometric sum. */
  lemma RunDelaysBounded(job: nat, p: Policy, reply: Reply, n: nat)
    requires ValidPolicy(p) && n >= 1
    ensures DelaysIn(Trace(job, p, reply, n, 3 * n + 2)) == TotalDelay(p, n - 1)
    ensures TotalDelay(p, n - 1) <= Min((n - 1) * p.maxDelay, p.baseDelay * (Pow2(n - 1) - 1))
  {
    hide Trace, TraceBefore, DelaysIn, NextDelay, TotalDelay, Pow2;
    TraceDelays(job, p, reply, n, n);
    TraceAttempt(job, p, reply, n, n);
    var invoked := TraceBefore(job, p, reply, n, n) + [HistoryEntry(job, JobStarted, Running, n, false)]
                                                    + [HistoryEntry(job, ConnectorInvocation, Running, n, false)];
    DelaysOfAttempt(TraceBefore(job, p, reply, n, n), job, n);
    var end := Closing(job, reply, n);
    DelaysAppend(invoked, end[0]);
    DelaysAppend(invoked + [end[0]], end[1]);
    assert invoked + end == invoked + [end[0]] + [end[1]];
    TotalDelayBounded(p, n - 1);
  }
}
