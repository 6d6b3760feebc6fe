/** How long a failed task waits before its next attempt. */
module RetryBackoff {
  import opened Outcomes

  const LIMIT := 0x8000_0000_0000_0000

  /** A signed 64-bit result, wrapped around. */
  function Wrap(x: int): (r: int)
    ensures -LIMIT <= r < LIMIT
    ensures -LIMIT <= x < LIMIT ==> r == x
  {
    (x + LIMIT) % (2 * LIMIT) - LIMIT
  }

  datatype Strategy = Fixed | Linear | Exponential | OtherStrategy(name: string)

  /** The intervals are in seconds. */
  datatype RetryPolicy = RetryPolicy(maxRetries: int, strategy: Strategy, baseSeconds: int, maxSeconds: int,
      codes: seq<string>)

  const SECOND := 1_000_000_000

  function Base(policy: RetryPolicy): int {
    Wrap(policy.baseSeconds * SECOND)
  }

  function Max(policy: RetryPolicy): int {
    Wrap(policy.maxSeconds * SECOND)
  }

  /** The doubling loop from pass `i` on: it stops at the maximum, before a doubling could pass it. */
  function Doubling(interval: int, max: int, i: int, attempt: int): int
    decreases attempt - i
  {
    if i >= attempt then interval
    else if interval >= max || interval > max / 2 then max
    else Doubling(Wrap(interval * 2), max, i + 1, attempt)
  }

  function Interval(policy: RetryPolicy, attempt: int): Option<int> {
    match policy.strategy
    case Fixed => Some(Base(policy))
    case Linear => Some(Wrap(attempt * Base(policy)))
    case Exponential => Some(Doubling(Base(policy), Max(policy), 1, attempt))
    case OtherStrategy(name) =>
      if name == "" then Some(Doubling(Base(policy), Max(policy), 1, attempt)) else None
  }

  function AtMost(x: int, max: int): int {
    if x > max then max else x
  }

  function BackoffDuration(policy: RetryPolicy, attempt: int): Result<int> {
    if attempt < 1 then Err("attempt number must be >= 1")
    else if policy.baseSeconds <= 0 then Err("base interval must be > 0")
    else if policy.maxSeconds <= 0 then Err("max interval must be > 0")
    else
      match Interval(policy, attempt)
      case None => Err("unsupported backoff strategy")
      case Some(interval) =>
        var r := AtMost(interval, Max(policy));
        if r < 0 then Err("computed negative interval") else Ok(r)
  }

  /** Half of a duration, rounded toward zero. */
  function Half(max: int): int {
    if max >= 0 then max / 2 else -(-max / 2)
  }

  /** An interval below `max` is past its half or not, whichever way the half is rounded. */
  lemma HalfRounding(interval: int, max: int)
    ensures interval >= max || interval > max / 2 <==> interval >= max || interval > Half(max)
  {
  }

  method ComputeBackoffDuration(policy: RetryPolicy, attempt: int) returns (r: Result<int>)
    ensures r == BackoffDuration(policy, attempt)
  {
    if attempt < 1 {
      return Err("attempt number must be >= 1");
    }
    if policy.baseSeconds <= 0 {
      return Err("base interval must be > 0");
    }
    if policy.maxSeconds <= 0 {
      return Err("max interval must be > 0");
    }
    var base := Wrap(policy.baseSeconds * SECOND);
    var max := Wrap(policy.maxSeconds * SECOND);
    var interval := base;
    match policy.strategy {
      case Fixed =>
      case Linear => interval := Wrap(attempt * base);
      case Exponential => interval := Double(base, max, attempt);
      case OtherStrategy(name) =>
        if name != "" {
          return Err("unsupported backoff strategy");
        }
        interval := Double(base, max, attempt);
    }
    if interval > max {
      interval := max;
    }
    if interval < 0 {
      return Err("computed negative interval");
    }
    return Ok(interval);
  }

  /** With durations that fit, the loop never holds more than the larger of the two, so nothing wraps. */
  method Double(base: int, max: int, attempt: int) returns (interval: int)
    ensures interval == Doubling(base, max, 1, attempt)
    ensures 0 < base < LIMIT && 0 < max < LIMIT ==> interval <= if base > max then base else max
  {
    interval := base;
    var i := 1;
    while i < attempt
      invariant Doubling(interval, max, i, attempt) == Doubling(base, max, 1, attempt)
      invariant 0 < base < LIMIT && 0 < max < LIMIT ==> 0 < interval <= if base > max then base else max
    {
      HalfRounding(interval, max);
      if interval >= max {
        return max;
      }
      if interval > Half(max) {
        return max;
      }
      interval := Wrap(interval * 2);
      i := i + 1;
    }
  }

  // -------------------------------------------------------------------------------------------
  // What the durations are
  // -------------------------------------------------------------------------------------------

  function Pow2(n: nat): nat {
    if n == 0 then 1 else 2 * Pow2(n - 1)
  }

  /** Both durations fit in 64 bits. */
  predicate Fits(policy: RetryPolicy) {
    && 0 < policy.baseSeconds && 0 < policy.maxSeconds
    && policy.baseSeconds * SECOND < LIMIT && policy.maxSeconds * SECOND < LIMIT
  }

  lemma TimesPow2(x: int, n: nat)
    requires n > 0
    ensures x * Pow2(n) == (2 * x) * Pow2(n - 1)
  {
  }

  lemma {:induction false} Pow2AtLeast(x: int, n: nat)
    requires 0 < x
    ensures x <= x * Pow2(n)
    decreases n
  {
    if n > 0 {
      TimesPow2(x, n);
      Pow2AtLeast(2 * x, n - 1);
    }
  }

  lemma {:induction false} DoublingIsPower(interval: int, max: int, i: int, attempt: int)
    requires 0 < interval < LIMIT && 0 < max < LIMIT && i <= attempt
    ensures AtMost(Doubling(interval, max, i, attempt), max) == AtMost(interval * Pow2(attempt - i), max)
    decreases attempt - i
  {
    if i < attempt {
      if interval >= max {
        Pow2AtLeast(interval, attempt - i);
      } else if interval > max / 2 {
        TimesPow2(interval, attempt - i);
        Pow2AtLeast(2 * interval, attempt - i - 1);
      } else {
        TimesPow2(interval, attempt - i);
        DoublingIsPower(2 * interval, max, i + 1, attempt);
      }
    }
  }

  /** The exponential strategy waits the base interval doubled once per earlier attempt, up to the maximum. */
  lemma ExponentialBackoff(policy: RetryPolicy, attempt: int)
    requires policy.strategy == Exponential && Fits(policy) && attempt >= 1
    ensures BackoffDuration(policy, attempt)
            == Ok(AtMost(policy.baseSeconds * SECOND * Pow2(attempt - 1), policy.maxSeconds * SECOND))
  {
    DoublingIsPower(Base(policy), Max(policy), 1, attempt);
    Pow2AtLeast(Base(policy), attempt - 1);
  }

  /**
   The linear strategy waits the base interval once per attempt, up to the maximum; it fails when that wraps
   below zero.
   */
  lemma LinearBackoff(policy: RetryPolicy, attempt: int, interval: int)
    requires policy.strategy == Linear && Fits(policy) && attempt >= 1 && interval == attempt * Base(policy)
    ensures Base(policy) == policy.baseSeconds * SECOND && interval > 0
    ensures BackoffDuration(policy, attempt)
            == if Wrap(interval) < 0 then Err("computed negative interval")
               else Ok(AtMost(Wrap(interval), policy.maxSeconds * SECOND))
    ensures interval < LIMIT ==> BackoffDuration(policy, attempt) == Ok(AtMost(interval, policy.maxSeconds * SECOND))
  {
    Product(attempt, Base(policy));
  }

  lemma Product(x: int, y: int)
    requires x > 0 && y > 0
    ensures x * y > 0
  {
  }

  lemma {:induction false} Pow2Monotone(m: nat, n: nat)
    requires m <= n
    ensures Pow2(m) <= Pow2(n)
  {
    if m < n { Pow2Monotone(m, n - 1); }
  }

  /** A later attempt never waits less. */
  lemma ExponentialMonotone(policy: RetryPolicy, m: int, n: int)
    requires policy.strategy == Exponential && Fits(policy) && 1 <= m <= n
    ensures BackoffDuration(policy, m).Ok? && BackoffDuration(policy, n).Ok?
    ensures BackoffDuration(policy, m).value <= BackoffDuration(policy, n).value
  {
    ExponentialBackoff(policy, m);
    ExponentialBackoff(policy, n);
    Pow2Monotone(m - 1, n - 1);
    Scale(policy.baseSeconds * SECOND, Pow2(m - 1), Pow2(n - 1));
  }

  lemma Scale(x: int, m: int, n: int)
    requires 0 <= x && m <= n
    ensures x * m <= x * n
  {
  }
}
