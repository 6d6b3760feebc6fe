/**
 Failing tasks: whether a failure is retried, when a task goes to the dead letter queue, and what an
 operator's requeue or release does to it. One task with a fixed definition.
 */
module TaskFailures {
  import opened Outcomes
  import opened Texts
  import opened RetryBackoff

  datatype ErrorClass = Transient | Permanent | UnknownClass

  /** Hyphens and blanks become underscores. */
  function Underscored(s: string): string {
    if s == "" then "" else [if s[0] == '-' || s[0] == ' ' then '_' else s[0]] + Underscored(s[1..])
  }

  function NormalizeErrorCode(raw: string): string {
    ToUpper(Underscored(TrimSpace(raw)))
  }

  const TRANSIENT_CODES := {
    "DOWNSTREAM_TIMEOUT", "NETWORK_TIMEOUT", "DB_DEADLOCK", "DOWNSTREAM_503", "SERVICE_UNAVAILABLE",
    "CONNECTION_RESET", "CONNECTION_REFUSED", "TEMPORARY_UNAVAILABLE", "THROTTLED" }

  const PERMANENT_CODES := {
    "VALIDATION_FAILED", "MALFORMED_PAYLOAD", "MISSING_REQUIRED_FIELD", "BUSINESS_RULE_VIOLATION",
    "UNAUTHORIZED", "FORBIDDEN", "NOT_FOUND" }

  function ClassifyErrorCode(code: string): ErrorClass {
    var normalized := NormalizeErrorCode(code);
    if normalized in TRANSIENT_CODES then Transient
    else if normalized in PERMANENT_CODES then Permanent
    else UnknownClass
  }

  // -------------------------------------------------------------------------------------------
  // Policy and threshold
  // -------------------------------------------------------------------------------------------

  /** A task's definition, with the poison-pill threshold of its own and that of its case type. */
  datatype TaskDef = TaskDef(policy: Option<RetryPolicy>, threshold: int, configThreshold: int)

  /** The normalized codes, each kept at its first occurrence, empty ones dropped. */
  function CleanCodes(codes: seq<string>): seq<string> {
    if codes == [] then []
    else
      var n := |codes| - 1;
      var clean := CleanCodes(codes[..n]);
      var code := NormalizeErrorCode(codes[n]);
      if code == "" || code in clean then clean else clean + [code]
  }

  function ResolvePolicy(def: TaskDef): (policy: RetryPolicy)
    ensures policy.maxRetries >= 0 && 0 < policy.baseSeconds <= policy.maxSeconds && !policy.strategy.OtherStrategy?
  {
    match def.policy
    case None => RetryPolicy(3, Exponential, 5, 300, [])
    case Some(p) =>
      var base := if p.baseSeconds > 0 then p.baseSeconds else 5;
      var max := if p.maxSeconds > 0 then p.maxSeconds else 300;
      RetryPolicy(
        if p.maxRetries >= 0 then p.maxRetries else 3,
        if p.strategy.OtherStrategy? then Exponential else p.strategy,
        base, if max < base then base else max, CleanCodes(p.codes))
  }

  function Threshold(def: TaskDef): (t: int)
    ensures t > 0
  {
    if def.threshold > 0 then def.threshold
    else if def.configThreshold > 0 then def.configThreshold
    else 12
  }

  method ResolveRetryableCodes(codes: seq<string>) returns (clean: seq<string>)
    ensures clean == CleanCodes(codes)
  {
    clean := [];
    var seen: set<string> := {};
    for i := 0 to |codes|
      invariant clean == CleanCodes(codes[..i])
      invariant forall c :: c in seen <==> c in clean
    {
      assert codes[..i + 1][..i] == codes[..i];
      var code := NormalizeErrorCode(codes[i]);
      if code == "" || code in seen {
        continue;
      }
      seen := seen + {code};
      clean := clean + [code];
    }
    assert codes[..|codes|] == codes;
  }

  /** Cleaning keeps exactly the codes that are not empty, and each of them once. */
  lemma {:induction false} CleanCodesSame(codes: seq<string>, code: string)
    ensures code in CleanCodes(codes) <==>
            code != "" && exists i | 0 <= i < |codes| :: NormalizeErrorCode(codes[i]) == code
    ensures forall i, j | 0 <= i < j < |CleanCodes(codes)| :: CleanCodes(codes)[i] != CleanCodes(codes)[j]
    decreases |codes|
  {
    if codes != [] {
      var n := |codes| - 1;
      CleanCodesSame(codes[..n], code);
      if NormalizeErrorCode(codes[n]) != code && exists i | 0 <= i < |codes| :: NormalizeErrorCode(codes[i]) == code {
        var i :| 0 <= i < |codes| && NormalizeErrorCode(codes[i]) == code;
        assert codes[..n][i] == codes[i];
      }
    }
  }

  // -------------------------------------------------------------------------------------------
  // The decision
  // -------------------------------------------------------------------------------------------

  datatype TaskStatus = Pending | InProgress | AwaitingExternal | Done | FailedTask | CancelledTask | Skipped

  predicate IsTerminal(status: TaskStatus) {
    status == Done || status == FailedTask || status == CancelledTask || status == Skipped
  }

  datatype Task = Task(status: TaskStatus, retryCount: int, maxRetries: int, totalFailures: int, poison: bool)

  datatype Decision = Decision(shouldRetry: bool, maxRetries: int, poison: bool, backoff: int)

  /** The row's own maximum stands in for a policy that allows no retry. */
  function MaxRetries(def: TaskDef, row: int): int {
    var policy := ResolvePolicy(def);
    if policy.maxRetries == 0 && row > 0 then row else policy.maxRetries
  }

  /** A retry stays within the row's maximum and below the poison-pill threshold. */
  predicate Sound(decision: Decision, task: Task, def: TaskDef) {
    && decision.maxRetries == MaxRetries(def, task.maxRetries)
    && decision.poison == (task.totalFailures + 1 >= Threshold(def))
    && (decision.shouldRetry ==> task.retryCount + 1 <= decision.maxRetries && !decision.poison)
  }

  predicate CodeRetryable(policy: RetryPolicy, code: string) {
    policy.codes == [] || exists i | 0 <= i < |policy.codes| ::
        NormalizeErrorCode(policy.codes[i]) == NormalizeErrorCode(code)
  }

  predicate Candidate(policy: RetryPolicy, code: string, kind: ErrorClass) {
    && (kind == Transient || (kind == UnknownClass && policy.codes != []))
    && CodeRetryable(policy, code)
  }

  function RetryDecision(task: Task, def: TaskDef, code: string, kind: ErrorClass): (r: Result<Decision>)
    ensures r.Ok? ==> Sound(r.value, task, def)
  {
    var policy := ResolvePolicy(def);
    var max := MaxRetries(def, task.maxRetries);
    var attempt := task.retryCount + 1;
    var candidate := Candidate(policy, code, kind) && attempt <= max;
    var backoff :- if candidate then BackoffDuration(policy, attempt) else Ok(0);
    var poison := task.totalFailures + 1 >= Threshold(def);
    Ok(Decision(candidate && kind != Permanent && !poison, max, poison, backoff))
  }

  // -------------------------------------------------------------------------------------------
  // The operations
  // -------------------------------------------------------------------------------------------

  datatype RowOutcome = Scheduled | Terminal | Requeued

  /** A row of the retry history; `wait` is missing when no attempt follows by itself. */
  datatype HistoryRow = HistoryRow(outcome: RowOutcome, attempt: int, wait: Option<int>)

  datatype Entry = Entry(active: bool, poison: bool, released: bool)

  /** The task, its entries in the dead letter queue and its retry history. */
  datatype Store = Store(task: Task, queue: seq<Entry>, history: seq<HistoryRow>)

  function Settle(s: Store, decision: Decision): Store {
    var task := s.task.(maxRetries := decision.maxRetries, totalFailures := s.task.totalFailures + 1);
    if decision.shouldRetry then
      Store(task.(status := Pending, retryCount := task.retryCount + 1), s.queue,
            s.history + [HistoryRow(Scheduled, s.task.retryCount + 1, Some(decision.backoff))])
    else
      Store(task.(status := FailedTask, poison := decision.poison),
            s.queue + [Entry(true, decision.poison, false)],
            s.history + [HistoryRow(Terminal, s.task.retryCount + 1, None)])
  }

  function HandleFailure(s: Store, def: TaskDef, code: string): Result<Store> {
    if IsTerminal(s.task.status) then Err("task already in terminal state")
    else
      var decision :- RetryDecision(s.task, def, code, ClassifyErrorCode(code));
      Ok(Settle(s, decision))
  }

  function Requeue(s: Store, e: nat): Result<Store> {
    if e >= |s.queue| || !s.queue[e].active then Err("active dlq entry not found")
    else
      var entry := s.queue[e].(active := false, released := s.queue[e].poison || s.queue[e].released);
      Ok(Store(s.task.(status := Pending, retryCount := 0, poison := false),
               s.queue[e := entry], s.history + [HistoryRow(Requeued, 0, None)]))
  }

  function ReleaseAll(queue: seq<Entry>): seq<Entry> {
    seq(|queue|, i requires 0 <= i < |queue| => if queue[i].active then queue[i].(released := true) else queue[i])
  }

  function Release(s: Store): Store {
    Store(s.task.(poison := false), ReleaseAll(s.queue), s.history)
  }

  /** A failure, the operator's two actions, or the rest of the system moving a task that is not terminal. */
  datatype Step = Fail(code: string) | RequeueEntry(e: nat) | ReleasePoison | Progress(status: TaskStatus)

  function Apply(s: Store, def: TaskDef, step: Step): Store {
    match step
    case Fail(code) => (match HandleFailure(s, def, code) case Ok(t) => t case Err(_) => s)
    case RequeueEntry(e) => (match Requeue(s, e) case Ok(t) => t case Err(_) => s)
    case ReleasePoison => Release(s)
    case Progress(status) =>
      if IsTerminal(s.task.status) || status == FailedTask then s else s.(task := s.task.(status := status))
  }

  function Run(s: Store, def: TaskDef, steps: seq<Step>): Store {
    if steps == [] then s else Apply(Run(s, def, steps[..|steps| - 1]), def, steps[|steps| - 1])
  }

  function Created(maxRetries: int): Store {
    Store(Task(Pending, 0, maxRetries, 0, false), [], [])
  }

  // -------------------------------------------------------------------------------------------
  // What holds over every run
  // -------------------------------------------------------------------------------------------

  function Rows(history: seq<HistoryRow>, outcome: RowOutcome): nat {
    if history == [] then 0
    else Rows(history[..|history| - 1], outcome) + if history[|history| - 1].outcome == outcome then 1 else 0
  }

  lemma RowsAppend(history: seq<HistoryRow>, last: HistoryRow, outcome: RowOutcome)
    ensures Rows(history + [last], outcome) == Rows(history, outcome) + if last.outcome == outcome then 1 else 0
  {
    assert (history + [last])[..|history|] == history;
  }

  function ActiveTo(queue: seq<Entry>, n: nat): nat
    requires n <= |queue|
  {
    if n == 0 then 0 else ActiveTo(queue, n - 1) + if queue[n - 1].active then 1 else 0
  }

  function Active(queue: seq<Entry>): nat {
    ActiveTo(queue, |queue|)
  }

  lemma {:induction false} ActiveSame(queue: seq<Entry>, other: seq<Entry>, n: nat)
    requires n <= |queue| && n <= |other| && forall i | 0 <= i < n :: queue[i].active == other[i].active
    ensures ActiveTo(queue, n) == ActiveTo(other, n)
  {
    if n > 0 { ActiveSame(queue, other, n - 1); }
  }

  lemma {:induction false} ActiveDropped(queue: seq<Entry>, e: nat, entry: Entry, n: nat)
    requires e < n <= |queue| && queue[e].active && !entry.active
    ensures ActiveTo(queue[e := entry], n) == ActiveTo(queue, n) - 1
  {
    if e == n - 1 {
      ActiveSame(queue, queue[e := entry], e);
    } else {
      ActiveDropped(queue, e, entry, n - 1);
    }
  }

  /** The most retries one stretch between requeues can have. */
  function Budget(def: TaskDef, row: int): nat {
    MaxRetries(def, row)
  }

  /**
   The total counts every handled failure and is never reset; retries are bounded by the threshold and
   by the budget of each stretch; the queue holds one active entry exactly while the task is failed.
   */
  ghost predicate Accounts(s: Store, def: TaskDef, budget: nat) {
    && s.task.totalFailures == Rows(s.history, Scheduled) + Rows(s.history, Terminal)
    && Rows(s.history, Scheduled) <= Threshold(def) - 1
    && MaxRetries(def, s.task.maxRetries) == budget
    && 0 <= s.task.retryCount <= budget
    && Rows(s.history, Scheduled) <= Rows(s.history, Requeued) * budget + s.task.retryCount
    && Active(s.queue) == if s.task.status == FailedTask then 1 else 0
  }

  lemma MaxRetriesSettled(def: TaskDef, row: int)
    ensures MaxRetries(def, MaxRetries(def, row)) == MaxRetries(def, row)
  {
  }

  lemma SettleAccounts(s: Store, def: TaskDef, decision: Decision, budget: nat)
    requires Accounts(s, def, budget) && Sound(decision, s.task, def) && s.task.status != FailedTask
    ensures Accounts(Settle(s, decision), def, budget)
  {
    var row := Settle(s, decision).history[|s.history|];
    RowsAppend(s.history, row, Scheduled);
    RowsAppend(s.history, row, Terminal);
    RowsAppend(s.history, row, Requeued);
    MaxRetriesSettled(def, s.task.maxRetries);
    ActiveSame(s.queue, Settle(s, decision).queue, |s.queue|);
  }

  lemma FailAccounts(s: Store, def: TaskDef, code: string, budget: nat)
    requires Accounts(s, def, budget) && HandleFailure(s, def, code).Ok?
    ensures Accounts(HandleFailure(s, def, code).value, def, budget)
  {
    SettleAccounts(s, def, RetryDecision(s.task, def, code, ClassifyErrorCode(code)).value, budget);
  }

  lemma RequeueAccounts(s: Store, def: TaskDef, e: nat, budget: nat)
    requires Accounts(s, def, budget) && Requeue(s, e).Ok?
    ensures Accounts(Requeue(s, e).value, def, budget)
  {
    var row := HistoryRow(Requeued, 0, None);
    RowsAppend(s.history, row, Scheduled);
    RowsAppend(s.history, row, Terminal);
    RowsAppend(s.history, row, Requeued);
    ActiveDropped(s.queue, e, Requeue(s, e).value.queue[e], |s.queue|);
    var r := Rows(s.history, Requeued);
    assert (r + 1) * budget == r * budget + budget;
  }

  lemma StepAccounts(s: Store, def: TaskDef, step: Step, budget: nat)
    requires Accounts(s, def, budget)
    ensures Accounts(Apply(s, def, step), def, budget)
  {
    match step
    case Fail(code) => if HandleFailure(s, def, code).Ok? { FailAccounts(s, def, code, budget); }
    case RequeueEntry(e) => if Requeue(s, e).Ok? { RequeueAccounts(s, def, e, budget); }
    case ReleasePoison => ActiveSame(s.queue, ReleaseAll(s.queue), |s.queue|);
    case Progress(status) =>
  }

  lemma {:induction false} RunAccounts(max: int, def: TaskDef, steps: seq<Step>)
    ensures Accounts(Run(Created(max), def, steps), def, Budget(def, max))
    decreases |steps|
  {
    if steps != [] {
      RunAccounts(max, def, steps[..|steps| - 1]);
      StepAccounts(Run(Created(max), def, steps[..|steps| - 1]), def, steps[|steps| - 1], Budget(def, max));
    }
  }

  /**
   In every run of failures, requeues and releases: the total is the number of failures handled; fewer
   retries than the threshold are ever scheduled, however often the task is requeued, and no more than
   the budget allows for each stretch; the queue has one active entry for the task when it is FAILED and
   none otherwise.
   */
  lemma RetriesBounded(max: int, def: TaskDef, steps: seq<Step>)
    ensures var s := Run(Created(max), def, steps);
            && s.task.totalFailures == Rows(s.history, Scheduled) + Rows(s.history, Terminal)
            && Rows(s.history, Scheduled) < Threshold(def)
            && Rows(s.history, Scheduled) <= (Rows(s.history, Requeued) + 1) * Budget(def, max)
            && Active(s.queue) == if s.task.status == FailedTask then 1 else 0
  {
    RunAccounts(max, def, steps);
    AccountsBound(Run(Created(max), def, steps), def, Budget(def, max));
  }

  lemma AccountsBound(s: Store, def: TaskDef, budget: nat)
    requires Accounts(s, def, budget)
    ensures Rows(s.history, Scheduled) <= (Rows(s.history, Requeued) + 1) * budget
  {
    var r := Rows(s.history, Requeued);
    assert (r + 1) * budget == r * budget + budget;
  }

  /** From any state, nothing lowers the total, and one that has reached the threshold allows no retry any more. */
  lemma {:induction false} QuarantineLasts(s: Store, def: TaskDef, steps: seq<Step>)
    ensures var t := Run(s, def, steps);
            && s.task.totalFailures <= t.task.totalFailures
            && (s.task.totalFailures >= Threshold(def) - 1 ==>
                  Rows(t.history, Scheduled) == Rows(s.history, Scheduled))
    decreases |steps|
  {
    if steps != [] {
      var n := |steps| - 1;
      QuarantineLasts(s, def, steps[..n]);
      StepQuarantined(Run(s, def, steps[..n]), def, steps[n]);
    }
  }

  lemma StepQuarantined(s: Store, def: TaskDef, step: Step)
    ensures var t := Apply(s, def, step);
            && s.task.totalFailures <= t.task.totalFailures
            && (s.task.totalFailures >= Threshold(def) - 1 ==>
                  Rows(t.history, Scheduled) == Rows(s.history, Scheduled))
  {
    RowsAppend(s.history, HistoryRow(Terminal, s.task.retryCount + 1, None), Scheduled);
    RowsAppend(s.history, HistoryRow(Requeued, 0, None), Scheduled);
  }

  // -------------------------------------------------------------------------------------------
  // The code's own form
  // -------------------------------------------------------------------------------------------

  class FailureService {
    const def: TaskDef
    var task: Task
    var queue: seq<Entry>
    var history: seq<HistoryRow>

    function State(): Store
      reads this
    {
      Store(task, queue, history)
    }

    method IsErrorCodeRetryable(policy: RetryPolicy, code: string) returns (retryable: bool)
      ensures retryable == CodeRetryable(policy, code)
    {
      if policy.codes == [] {
        return true;
      }
      var normalized := NormalizeErrorCode(code);
      for i := 0 to |policy.codes|
        invariant forall j | 0 <= j < i :: NormalizeErrorCode(policy.codes[j]) != normalized
      {
        if NormalizeErrorCode(policy.codes[i]) == normalized {
          return true;
        }
      }
      return false;
    }

    method EvaluateRetryDecision(code: string, kind: ErrorClass) returns (r: Result<Decision>)
      ensures r == RetryDecision(task, def, code, kind)
    {
      var policy := ResolvePolicy(def);
      var max := policy.maxRetries;
      if max == 0 && task.maxRetries > 0 {
        max := task.maxRetries;
      }
      var attempt := task.retryCount + 1;
      var retryable := IsErrorCodeRetryable(policy, code);
      var decision := Decision(false, max, false, 0);
      if (kind == Transient || (kind == UnknownClass && |policy.codes| > 0)) && retryable && attempt <= max {
        var backoff := ComputeBackoffDuration(policy, attempt);
        if backoff.Err? {
          return Err(backoff.error);
        }
        decision := decision.(shouldRetry := true, backoff := backoff.value);
      }
      if kind == Permanent {
        decision := decision.(shouldRetry := false);
      }
      if task.totalFailures + 1 >= Threshold(def) {
        decision := decision.(poison := true, shouldRetry := false);
      }
      return Ok(decision);
    }

    method HandleTaskFailure(code: string) returns (ok: bool)
      modifies this
      ensures State() == Apply(old(State()), def, Fail(code))
      ensures ok == HandleFailure(old(State()), def, code).Ok?
    {
      if IsTerminal(task.status) {
        return false;
      }
      var r := EvaluateRetryDecision(code, ClassifyErrorCode(code));
      if r.Err? {
        return false;
      }
      task := task.(maxRetries := r.value.maxRetries, totalFailures := task.totalFailures + 1);
      if r.value.shouldRetry {
        task := task.(status := Pending, retryCount := task.retryCount + 1);
        history := history + [HistoryRow(Scheduled, task.retryCount, Some(r.value.backoff))];
        return true;
      }
      task := task.(status := FailedTask, poison := r.value.poison);
      history := history + [HistoryRow(Terminal, task.retryCount + 1, None)];
      queue := queue + [Entry(true, r.value.poison, false)];
      return true;
    }

    method RequeueDLQEntry(e: nat) returns (ok: bool)
      modifies this
      ensures State() == Apply(old(State()), def, RequeueEntry(e))
      ensures ok == Requeue(old(State()), e).Ok?
    {
      if e >= |queue| || !queue[e].active {
        return false;
      }
      task := task.(status := Pending, retryCount := 0, poison := false);
      var entry := queue[e].(active := false);
      if entry.poison {
        entry := entry.(released := true);
      }
      queue := queue[e := entry];
      history := history + [HistoryRow(Requeued, 0, None)];
      return true;
    }

    method PoisonPillRelease()
      modifies this
      ensures State() == Apply(old(State()), def, ReleasePoison)
    {
      task := task.(poison := false);
      for i := 0 to |queue|
        invariant |queue| == |old(queue)| && task == old(task).(poison := false) && history == old(history)
        invariant forall j | 0 <= j < i :: queue[j] == ReleaseAll(old(queue))[j]
        invariant forall j | i <= j < |queue| :: queue[j] == old(queue)[j]
      {
        if queue[i].active {
          queue := queue[i := queue[i].(released := true)];
        }
      }
    }
  }
}
