/** Connectors: what one call can produce, and the mock connector with its per-key attempt counter. */
module Connectors {
  import opened Prelude
  import opened Text

  datatype Operation =
    | HealthCheck | CreateUser | UpdateUser | DisableUser | DeleteUser | CreateGroup | UpdateGroup | DeleteGroup
    | AddGroupMember | RemoveGroupMember | GrantEntitlement | RevokeEntitlement

  datatype Status = Success | Failed | Retryable | Skipped

  /** A returned result, or a raised exception: `typed` when its class is one of the policy's
      retryable types, `flagged` when it carries the retryable attribute. */
  datatype Reply =
    | Returned(status: Status, retryable: bool, message: string)
    | Raised(typed: bool, flagged: bool, message: string)

  datatype Mode =
    | SuccessMode | ValidationFailure | Timeout | RateLimit | RetryableFailure | NonRetryableFailure | Degraded | Unavailable

  datatype MockConfig = MockConfig(enabled: bool, mode: Mode, failuresBeforeSuccess: nat, supported: set<Operation>)

  /** A connector is the configurable mock, or anything at all that answers its calls in turn. */
  datatype Behaviour = Mock(cfg: MockConfig) | Arbitrary(script: nat -> Reply)

  datatype Key = Key(operation: Operation, correlation: string)

  /** The mock's answer to the n-th counted call of one key. */
  function MockReply(cfg: MockConfig, operation: Operation, n: nat): Reply {
    if operation !in cfg.supported then Raised(false, false, "unsupported operation")
    else if !cfg.enabled then Returned(Skipped, false, "connector is disabled")
    else if n <= cfg.failuresBeforeSuccess then Raised(true, true, "retryable failure before success")
    else
      match cfg.mode
      case ValidationFailure => Raised(false, false, "validation failure")
      case Timeout => Raised(true, true, "timeout")
      case RateLimit => Raised(true, true, "rate limit")
      case RetryableFailure => Raised(true, true, "retryable failure")
      case NonRetryableFailure => Raised(false, false, "non-retryable failure")
      case Unavailable => Raised(true, true, "unavailable")
      case _ => Returned(Success, false, "simulated successfully")
  }

  /** Calls that reach the attempt counter. */
  predicate Counts(cfg: MockConfig, operation: Operation) {
    operation in cfg.supported && cfg.enabled
  }

  /** The answer to the i-th call from now on. */
  function ReplyOf(b: Behaviour, attempts: map<Key, nat>, calls: nat, key: Key, i: nat): Reply {
    match b
    case Mock(cfg) => MockReply(cfg, key.operation, GetOr(attempts, key, 0) + i)
    case Arbitrary(script) => script(calls + i)
  }

  type Script = nat -> Reply

  function ScriptOf(b: Behaviour, attempts: map<Key, nat>, calls: nat, key: Key): Script {
    (i: nat) => ReplyOf(b, attempts, calls, key, i)
  }

  /** `after` is `before` with its first reply used up. */
  ghost predicate Advances(after: Script, before: Script) {
    forall i: nat :: after(i) == before(i + 1)
  }

  lemma MockAdvances(cfg: MockConfig, key: Key, before: map<Key, nat>, after: map<Key, nat>, calls: nat, calls': nat)
    requires after == if Counts(cfg, key.operation) then before[key := GetOr(before, key, 0) + 1] else before
    ensures ScriptOf(Mock(cfg), before, calls, key)(1) == MockReply(cfg, key.operation, GetOr(before, key, 0) + 1)
    ensures Advances(ScriptOf(Mock(cfg), after, calls', key), ScriptOf(Mock(cfg), before, calls, key))
  {
    forall i: nat
      ensures ReplyOf(Mock(cfg), after, calls', key, i) == ReplyOf(Mock(cfg), before, calls, key, i + 1)
    {
    }
  }

  lemma ArbitraryAdvances(b: Behaviour, key: Key, attempts: map<Key, nat>, calls: nat)
    requires b.Arbitrary?
    ensures ScriptOf(b, attempts, calls, key)(1) == b.script(calls + 1)
    ensures Advances(ScriptOf(b, attempts, calls + 1, key), ScriptOf(b, attempts, calls, key))
  {
  }

  class Connector {
    const behaviour: Behaviour
    var attempts: map<Key, nat>
    var calls: nat

    constructor (behaviour: Behaviour)
      ensures this.behaviour == behaviour && attempts == map[] && calls == 0
    {
      this.behaviour := behaviour;
      attempts, calls := map[], 0;
    }

    function Script(key: Key): Script
      reads this
    {
      ScriptOf(behaviour, attempts, calls, key)
    }

    /** One call answers with the first reply of the script and leaves the rest of it. */
    method Call(key: Key) returns (r: Reply)
      modifies this
      ensures r == old(Script(key))(1)
      ensures Advances(Script(key), old(Script(key)))
      ensures calls == old(calls) + 1
    {
      hide MockReply, ScriptOf, Advances, Counts;
      calls := calls + 1;
      match behaviour
      case Arbitrary(script) =>
        ArbitraryAdvances(behaviour, key, attempts, old(calls));
        r := script(calls);
      case Mock(cfg) =>
        r := CallMock(cfg, key);
        MockAdvances(cfg, key, old(attempts), attempts, old(calls), calls);
    }

    /** The mock: refuses, skips, fails the first counted calls, then does what its mode says. */
    method CallMock(cfg: MockConfig, key: Key) returns (r: Reply)
      modifies this`attempts
      ensures r == MockReply(cfg, key.operation, GetOr(old(attempts), key, 0) + 1)
      ensures attempts == if Counts(cfg, key.operation) then old(attempts)[key := GetOr(old(attempts), key, 0) + 1] else old(attempts)
    {
      if key.operation !in cfg.supported {
        return Raised(false, false, "unsupported operation");
      }
      if !cfg.enabled {
        return Returned(Skipped, false, "connector is disabled");
      }
      var attempt := RecordAttempt(key);
      if attempt <= cfg.failuresBeforeSuccess {
        return Raised(true, true, "retryable failure before success");
      }
      r := MockReply(cfg.(failuresBeforeSuccess := 0), key.operation, 1);
    }

    method RecordAttempt(key: Key) returns (attempt: nat)
      modifies this`attempts
      ensures attempt == GetOr(old(attempts), key, 0) + 1
      ensures attempts == old(attempts)[key := attempt]
    {
      attempt := GetOr(attempts, key, 0) + 1;
      attempts := attempts[key := attempt];
    }
  }

  // ----- Payload checks made before the connector is called

  datatype Value = Missing | TextValue(s: string) | Mapping

  predicate Present(payload: map<string, Value>, name: string) {
    var v := GetOr(payload, name, Missing);
    v.Mapping? || (v.TextValue? && Strip(v.s) != "")
  }

  /** The payload has what the operation needs; other operations cannot be dispatched at all. */
  predicate Dispatchable(operation: Operation, payload: map<string, Value>) {
    match operation
    case CreateUser | CreateGroup => true
    case UpdateUser | DisableUser | DeleteUser => Present(payload, "user_id")
    case UpdateGroup | DeleteGroup => Present(payload, "group_id")
    case AddGroupMember | RemoveGroupMember => Present(payload, "group_id") && Present(payload, "user_id")
    case GrantEntitlement | RevokeEntitlement => Present(payload, "user_id") && GetOr(payload, "entitlement", Missing).Mapping?
    case HealthCheck => false
  }

  /** The member is there and is not blank. */
  predicate Supplies(payload: map<string, Value>, name: string) {
    name in payload && payload[name] != Missing && (payload[name].TextValue? ==> Strip(payload[name].s) != "")
  }

  /** What each operation needs in its payload before the connector is called. */
  lemma DispatchableMeaning(operation: Operation, payload: map<string, Value>)
    ensures operation == CreateUser || operation == CreateGroup ==> Dispatchable(operation, payload)
    ensures operation == HealthCheck ==> !Dispatchable(operation, payload)
    ensures operation in {UpdateUser, DisableUser, DeleteUser} ==> (Dispatchable(operation, payload) <==> Supplies(payload, "user_id"))
    ensures operation in {UpdateGroup, DeleteGroup} ==> (Dispatchable(operation, payload) <==> Supplies(payload, "group_id"))
    ensures operation in {AddGroupMember, RemoveGroupMember} ==>
      (Dispatchable(operation, payload) <==> Supplies(payload, "group_id") && Supplies(payload, "user_id"))
    ensures operation in {GrantEntitlement, RevokeEntitlement} ==>
      (Dispatchable(operation, payload) <==>
         Supplies(payload, "user_id") && "entitlement" in payload && payload["entitlement"] == Mapping)
  {
    hide Strip;
  }
}
