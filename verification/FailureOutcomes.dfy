/**
 What becomes of a failing task, told from the error code, the task's definition and its row: exactly when
 a failure is retried and how long it waits, that the whole budget of retries is used, and what the
 poison-pill flags say over every run.
 */
module FailureOutcomes {
  import opened Outcomes
  import opened Texts
  import opened RetryBackoff
  import opened TaskFailures

  // -------------------------------------------------------------------------------------------
  // Normalized codes
  // -------------------------------------------------------------------------------------------

  function Normal(c: char): char {
    if c == '-' || c == ' ' then '_' else if 'a' <= c <= 'z' then c - 'a' + 'A' else c
  }

  lemma {:induction false} NormalizedAt(s: string)
    ensures |ToUpper(Underscored(s))| == |s|
    ensures forall i | 0 <= i < |s| :: ToUpper(Underscored(s))[i] == Normal(s[i])
    decreases |s|
  {
    if s != "" {
      NormalizedAt(s[1..]);
      assert Underscored(s)[1..] == Underscored(s[1..]);
      forall i | 0 <= i < |s|
        ensures ToUpper(Underscored(s))[i] == Normal(s[i])
      {
        if i > 0 { assert s[i] == s[1..][i - 1]; }
      }
    }
  }

  lemma NormalTwice(c: char)
    ensures Normal(Normal(c)) == Normal(c) && (!IsSpace(c) ==> !IsSpace(Normal(c)))
  {
  }

  /** Normalizing again changes nothing. */
  lemma NormalizedStays(raw: string)
    ensures NormalizeErrorCode(NormalizeErrorCode(raw)) == NormalizeErrorCode(raw)
  {
    var t := TrimSpace(raw);
    var code := NormalizeErrorCode(raw);
    NormalizedAt(t);
    if t != "" {
      NormalTwice(t[0]);
      NormalTwice(t[|t| - 1]);
      assert TrimSpace(code) == code;
    }
    NormalizedAt(code);
    forall i | 0 <= i < |code|
      ensures NormalizeErrorCode(code)[i] == code[i]
    {
      NormalTwice(t[i]);
    }
  }

  // -------------------------------------------------------------------------------------------
  // When a failure is retried
  // -------------------------------------------------------------------------------------------

  /** The definition's policy lists a code that is the same once both are normalized. */
  predicate Lists(def: TaskDef, code: string) {
    def.policy.Some? && exists i | 0 <= i < |def.policy.value.codes| ::
        NormalizeErrorCode(def.policy.value.codes[i]) == code
  }

  /** The policy lists some code that is not blank. */
  predicate ListsSome(def: TaskDef) {
    def.policy.Some? && exists i | 0 <= i < |def.policy.value.codes| ::
        NormalizeErrorCode(def.policy.value.codes[i]) != ""
  }

  /**
   A code that is worth another attempt: one of the transient ones, or one in neither list when the policy
   lists codes; and one that the policy lists, when it lists any.
   */
  predicate Retryable(def: TaskDef, raw: string) {
    var code := NormalizeErrorCode(raw);
    && (code in TRANSIENT_CODES || (code !in PERMANENT_CODES && ListsSome(def)))
    && (ListsSome(def) ==> code != "" && Lists(def, code))
  }

  /** The wait before the attempt with this number, in nanoseconds. */
  predicate WaitIs(policy: RetryPolicy, attempt: int, wait: int) {
    var base, max := policy.baseSeconds * SECOND, policy.maxSeconds * SECOND;
    attempt >= 1 &&
    match policy.strategy
    case Fixed => wait == base
    case Linear => attempt * base < LIMIT ==> wait == AtMost(attempt * base, max)
    case Exponential => wait == AtMost(base * Pow2(attempt - 1), max)
    case OtherStrategy(_) => false
  }

  lemma ListedCodes(def: TaskDef, code: string)
    ensures ResolvePolicy(def).codes == [] <==> !ListsSome(def)
    ensures code != "" ==> (code in ResolvePolicy(def).codes <==> Lists(def, code))
    ensures "" !in ResolvePolicy(def).codes
  {
    if def.policy.Some? {
      var raw := def.policy.value.codes;
      CleanCodesSame(raw, code);
      CleanCodesSame(raw, "");
      if ListsSome(def) {
        var i :| 0 <= i < |raw| && NormalizeErrorCode(raw[i]) != "";
        CleanCodesSame(raw, NormalizeErrorCode(raw[i]));
      }
      if ResolvePolicy(def).codes != [] {
        CleanCodesSame(raw, ResolvePolicy(def).codes[0]);
      }
    }
  }

  lemma CleanIsNormal(def: TaskDef, i: nat)
    requires i < |ResolvePolicy(def).codes|
    ensures NormalizeErrorCode(ResolvePolicy(def).codes[i]) == ResolvePolicy(def).codes[i]
  {
    var raw, code := def.policy.value.codes, ResolvePolicy(def).codes[i];
    CleanCodesSame(raw, code);
    var j :| 0 <= j < |raw| && NormalizeErrorCode(raw[j]) == code;
    NormalizedStays(raw[j]);
  }

  lemma CodeRetryableIff(def: TaskDef, raw: string)
    ensures var code := NormalizeErrorCode(raw);
            CodeRetryable(ResolvePolicy(def), raw) <==> (ListsSome(def) ==> code != "" && Lists(def, code))
  {
    var code, codes := NormalizeErrorCode(raw), ResolvePolicy(def).codes;
    ListedCodes(def, code);
    if codes != [] {
      forall i | 0 <= i < |codes|
        ensures NormalizeErrorCode(codes[i]) == codes[i]
      {
        CleanIsNormal(def, i);
      }
      if code in codes {
        var i :| 0 <= i < |codes| && codes[i] == code;
        assert NormalizeErrorCode(codes[i]) == code;
      }
    }
  }

  lemma CandidateIff(def: TaskDef, raw: string)
    ensures Candidate(ResolvePolicy(def), raw, ClassifyErrorCode(raw)) <==> Retryable(def, raw)
  {
    CodeRetryableIff(def, raw);
    ListedCodes(def, NormalizeErrorCode(raw));
  }

  /** Within the budget of the row, and the threshold is not reached by this failure. */
  predicate Affordable(task: Task, def: TaskDef) {
    task.retryCount + 1 <= MaxRetries(def, task.maxRetries) && task.totalFailures + 1 < Threshold(def)
  }

  /** What a definition says is taken as it is; what it leaves out or sets to nonsense is the default. */
  lemma DefaultsMean(def: TaskDef)
    ensures var policy := ResolvePolicy(def);
            && (def.policy.None? ==> policy == RetryPolicy(3, Exponential, 5, 300, []))
            && (def.policy.Some? ==> var p := def.policy.value;
                  && (p.maxRetries >= 0 ==> policy.maxRetries == p.maxRetries)
                  && (p.maxRetries < 0 ==> policy.maxRetries == 3)
                  && (p.strategy in {Fixed, Linear, Exponential} ==> policy.strategy == p.strategy)
                  && (p.strategy.OtherStrategy? ==> policy.strategy == Exponential)
                  && (0 < p.baseSeconds <= p.maxSeconds ==>
                        policy.baseSeconds == p.baseSeconds && policy.maxSeconds == p.maxSeconds)
                  && (p.baseSeconds <= 0 && p.maxSeconds <= 0 ==> policy.baseSeconds == 5 && policy.maxSeconds == 300))
    ensures def.threshold <= 0 && def.configThreshold <= 0 ==> Threshold(def) == 12
    ensures def.threshold > 0 ==> Threshold(def) == def.threshold
    ensures def.threshold <= 0 < def.configThreshold ==> Threshold(def) == def.configThreshold
  {
  }

  /** What a failure leaves behind: one more attempt is scheduled, or the task is failed and queued. */
  ghost predicate Retried(s: Store, t: Store, def: TaskDef) {
    && t.task == s.task.(status := Pending, retryCount := s.task.retryCount + 1,
                         maxRetries := MaxRetries(def, s.task.maxRetries), totalFailures := s.task.totalFailures + 1)
    && t.queue == s.queue && |t.history| == |s.history| + 1 && s.history <= t.history
    && var row := t.history[|s.history|];
       row.outcome == Scheduled && row.attempt == s.task.retryCount + 1 && row.wait.Some?
       && (Fits(ResolvePolicy(def)) ==> WaitIs(ResolvePolicy(def), row.attempt, row.wait.value))
  }

  ghost predicate DeadLettered(s: Store, t: Store, def: TaskDef) {
    var poison := s.task.totalFailures + 1 >= Threshold(def);
    && t.task == s.task.(status := FailedTask, maxRetries := MaxRetries(def, s.task.maxRetries),
                         totalFailures := s.task.totalFailures + 1, poison := poison)
    && t.queue == s.queue + [Entry(true, poison, false)]
    && t.history == s.history + [HistoryRow(Terminal, s.task.retryCount + 1, None)]
  }

  lemma WaitComputed(policy: RetryPolicy, attempt: int)
    requires Fits(policy) && policy.baseSeconds <= policy.maxSeconds && BackoffDuration(policy, attempt).Ok?
    requires !policy.strategy.OtherStrategy?
    ensures WaitIs(policy, attempt, BackoffDuration(policy, attempt).value)
  {
    match policy.strategy
    case Fixed =>
    case Linear => LinearBackoff(policy, attempt, attempt * Base(policy));
    case Exponential => ExponentialBackoff(policy, attempt);
  }

  /** A handled failure is retried, after the wait of its strategy, exactly when its code and the row allow it. */
  lemma FailureOutcome(s: Store, def: TaskDef, code: string)
    requires HandleFailure(s, def, code).Ok?
    ensures var t := HandleFailure(s, def, code).value;
            if Retryable(def, code) && Affordable(s.task, def) then Retried(s, t, def) else DeadLettered(s, t, def)
  {
    CandidateIff(def, code);
    var policy, attempt := ResolvePolicy(def), s.task.retryCount + 1;
    if Retryable(def, code) && Affordable(s.task, def) && Fits(policy) {
      WaitComputed(policy, attempt);
    }
  }

  /** A failure is refused exactly when the task is over, or the wait of a retry within the budget has no value. */
  lemma HandledIff(s: Store, def: TaskDef, code: string)
    ensures HandleFailure(s, def, code).Ok? <==>
            && !IsTerminal(s.task.status)
            && (Retryable(def, code) && s.task.retryCount + 1 <= MaxRetries(def, s.task.maxRetries) ==>
                  BackoffDuration(ResolvePolicy(def), s.task.retryCount + 1).Ok?)
  {
    CandidateIff(def, code);
  }

  /** The wait has a value as long as it fits in 64 bits. */
  predicate Waitable(policy: RetryPolicy, attempt: int) {
    Fits(policy) && attempt >= 1 && (policy.strategy == Linear ==> attempt * (policy.baseSeconds * SECOND) < LIMIT)
  }

  lemma WaitableComputes(policy: RetryPolicy, attempt: int)
    requires Waitable(policy, attempt) && !policy.strategy.OtherStrategy?
    ensures BackoffDuration(policy, attempt).Ok?
  {
    match policy.strategy
    case Fixed =>
    case Linear => LinearBackoff(policy, attempt, attempt * Base(policy));
    case Exponential => ExponentialBackoff(policy, attempt); Pow2AtLeast(Base(policy), attempt - 1);
  }

  /** A failure that may be retried and whose wait has a value is retried. */
  lemma RetryGranted(s: Store, def: TaskDef, code: string)
    requires !IsTerminal(s.task.status) && Retryable(def, code) && Affordable(s.task, def)
    requires Waitable(ResolvePolicy(def), s.task.retryCount + 1)
    ensures Retried(s, Apply(s, def, Fail(code)), def)
  {
    WaitableComputes(ResolvePolicy(def), s.task.retryCount + 1);
    HandledIff(s, def, code);
    FailureOutcome(s, def, code);
  }

  /** A new task with the default policy that meets a transient failure waits five seconds for its next attempt. */
  lemma TransientRetried(def: TaskDef, max: int, code: string)
    requires def.policy.None? && Threshold(def) > 1 && NormalizeErrorCode(code) in TRANSIENT_CODES
    ensures var t := Apply(Created(max), def, Fail(code));
            && t.task.status == Pending && t.task.retryCount == 1 && t.queue == []
            && |t.history| == 1 && t.history[0] == HistoryRow(Scheduled, 1, Some(5 * SECOND))
  {
    RetryGranted(Created(max), def, code);
  }

  // -------------------------------------------------------------------------------------------
  // The whole budget is used
  // -------------------------------------------------------------------------------------------

  /** As many retries as the budget and the threshold allow. */
  function Allowance(def: TaskDef, max: int): nat {
    var budget := Budget(def, max);
    if budget < Threshold(def) then budget else Threshold(def) - 1
  }

  function Failing(code: string, n: nat): seq<Step> {
    seq(n, _ => Fail(code))
  }

  lemma FailingStep(s: Store, def: TaskDef, code: string, n: nat)
    ensures Run(s, def, Failing(code, n + 1)) == Apply(Run(s, def, Failing(code, n)), def, Fail(code))
  {
    assert Failing(code, n + 1)[..n] == Failing(code, n);
  }

  /** `n` failures in, every one was retried. */
  ghost predicate AllRetried(s: Store, def: TaskDef, n: nat, budget: nat) {
    && s.task.status == Pending && s.task.retryCount == n && s.task.totalFailures == n && s.queue == []
    && MaxRetries(def, s.task.maxRetries) == budget
    && |s.history| == n && forall i | 0 <= i < n :: s.history[i].outcome == Scheduled
  }

  lemma OneMoreRetry(s: Store, t: Store, def: TaskDef, n: nat, budget: nat)
    requires AllRetried(s, def, n, budget) && Retried(s, t, def)
    ensures AllRetried(t, def, n + 1, budget)
  {
    MaxRetriesSettled(def, s.task.maxRetries);
  }

  /** A task that keeps failing with a retryable code is attempted again until its allowance is used up. */
  lemma {:induction false} RetriesGranted(max: int, def: TaskDef, code: string, n: nat)
    requires Retryable(def, code) && n <= Allowance(def, max)
    requires forall k | 1 <= k <= Allowance(def, max) :: Waitable(ResolvePolicy(def), k)
    ensures AllRetried(Run(Created(max), def, Failing(code, n)), def, n, Budget(def, max))
    decreases n
  {
    if n > 0 {
      var before := Run(Created(max), def, Failing(code, n - 1));
      RetriesGranted(max, def, code, n - 1);
      FailingStep(Created(max), def, code, n - 1);
      RetryGranted(before, def, code);
      OneMoreRetry(before, Apply(before, def, Fail(code)), def, n - 1, Budget(def, max));
    }
  }

  /** The next failure ends the task: it waits in the queue, as a poison pill when the threshold is reached. */
  lemma ThenDeadLettered(max: int, def: TaskDef, code: string)
    requires Retryable(def, code)
    requires forall k | 1 <= k <= Allowance(def, max) :: Waitable(ResolvePolicy(def), k)
    requires Threshold(def) <= Budget(def, max) ==> Waitable(ResolvePolicy(def), Threshold(def))
    ensures var n := Allowance(def, max); var s := Run(Created(max), def, Failing(code, n + 1));
            && s.task.status == FailedTask && s.task.retryCount == n && s.task.totalFailures == n + 1
            && s.queue == [Entry(true, n + 1 >= Threshold(def), false)]
  {
    var n := Allowance(def, max);
    var before := Run(Created(max), def, Failing(code, n));
    RetriesGranted(max, def, code, n);
    FailingStep(Created(max), def, code, n);
    if n + 1 <= Budget(def, max) { WaitableComputes(ResolvePolicy(def), n + 1); }
    HandledIff(before, def, code);
    FailureOutcome(before, def, code);
  }

  // -------------------------------------------------------------------------------------------
  // Poison pills
  // -------------------------------------------------------------------------------------------

  /**
   An active entry belongs to a failed task and is a poison pill exactly when the task's failures have
   reached the threshold; the task is flagged exactly while such an entry has not been released.
   */
  ghost predicate Flagged(s: Store, def: TaskDef) {
    && (forall i | 0 <= i < |s.queue| && s.queue[i].active ::
          s.task.status == FailedTask && (s.queue[i].poison <==> s.task.totalFailures >= Threshold(def)))
    && (forall i, j | 0 <= i < j < |s.queue| :: !(s.queue[i].active && s.queue[j].active))
    && (s.task.status == FailedTask ==> exists i :: 0 <= i < |s.queue| && s.queue[i].active)
    && (s.task.poison <==> exists i :: 0 <= i < |s.queue| && Quarantined(s.queue[i]))
  }

  predicate Quarantined(entry: Entry) {
    entry.active && entry.poison && !entry.released
  }

  lemma FailFlagged(s: Store, def: TaskDef, code: string)
    requires Flagged(s, def) && HandleFailure(s, def, code).Ok?
    ensures Flagged(HandleFailure(s, def, code).value, def)
  {
    FailureOutcome(s, def, code);
    var t := HandleFailure(s, def, code).value;
    if t.queue != s.queue {
      assert t.queue[|s.queue|].active;
    }
  }

  lemma RequeueFlagged(s: Store, def: TaskDef, e: nat)
    requires Flagged(s, def) && Requeue(s, e).Ok?
    ensures Flagged(Requeue(s, e).value, def)
  {
    var t := Requeue(s, e).value;
    assert forall i | 0 <= i < |t.queue| :: !t.queue[i].active;
  }

  lemma ReleaseFlagged(s: Store, def: TaskDef)
    requires Flagged(s, def)
    ensures Flagged(Release(s), def)
  {
    var t := Release(s);
    if s.task.status == FailedTask {
      var i :| 0 <= i < |s.queue| && s.queue[i].active;
      assert t.queue[i].active;
    }
  }

  lemma StepFlagged(s: Store, def: TaskDef, step: Step)
    requires Flagged(s, def)
    ensures Flagged(Apply(s, def, step), def)
  {
    match step
    case Fail(code) => if HandleFailure(s, def, code).Ok? { FailFlagged(s, def, code); }
    case RequeueEntry(e) => if Requeue(s, e).Ok? { RequeueFlagged(s, def, e); }
    case ReleasePoison => ReleaseFlagged(s, def);
    case Progress(status) =>
  }

  lemma {:induction false} FlagsOverRuns(max: int, def: TaskDef, steps: seq<Step>)
    ensures Flagged(Run(Created(max), def, steps), def)
    decreases |steps|
  {
    if steps != [] {
      FlagsOverRuns(max, def, steps[..|steps| - 1]);
      StepFlagged(Run(Created(max), def, steps[..|steps| - 1]), def, steps[|steps| - 1]);
    }
  }

  /** After every run a requeue is accepted of the one active entry, and gives the task its whole budget again. */
  lemma RequeueStartsOver(max: int, def: TaskDef, steps: seq<Step>, e: nat)
    ensures var s := Run(Created(max), def, steps); var t := Apply(s, def, RequeueEntry(e));
            if e < |s.queue| && s.queue[e].active then
              && s.task.status == FailedTask
              && t.task == s.task.(status := Pending, retryCount := 0, poison := false)
              && |t.queue| == |s.queue| && t.queue[e].released == (s.queue[e].released || s.queue[e].poison)
              && (forall i | 0 <= i < |t.queue| :: !t.queue[i].active && t.queue[i].poison == s.queue[i].poison)
              && (forall i | 0 <= i < |t.queue| && i != e :: t.queue[i] == s.queue[i])
            else t == s
  {
    FlagsOverRuns(max, def, steps);
  }
}
