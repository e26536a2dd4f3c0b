/** Retrying: provider calls with exponential backoff, and opening a database that may be locked. */
module Retry {
  import opened Wrappers

  datatype ProviderError = ConnectionError | TimeoutError | RateLimit | Api(status: Option<int>)
                         | Authentication | ModelNotAvailable | OtherError

  predicate IsRetryable(e: ProviderError) {
    match e
    case ConnectionError => true
    case TimeoutError => true
    case RateLimit => true
    case Api(status) => status.Some? && status.value >= 500
    case _ => false
  }

  datatype Outcome = Success | Failed(error: ProviderError)

  /** The call is over, one way or the other. */
  predicate Settles(o: Outcome) {
    o.Success? || !IsRetryable(o.error)
  }

  datatype RetryConfig = RetryConfig(maxRetries: int, initialDelay: real, maxDelay: real, base: real, jitter: bool)

  function Power(b: real, n: nat): real {
    if n == 0 then 1.0 else b * Power(b, n - 1)
  }

  /** The delay before jitter. */
  function BaseDelay(c: RetryConfig, attempt: nat): real {
    var delay := c.initialDelay * Power(c.base, attempt);
    if delay <= c.maxDelay then delay else c.maxDelay
  }

  function RetryDelay(c: RetryConfig, attempt: nat, random: real): real {
    BaseDelay(c, attempt) + if c.jitter then BaseDelay(c, attempt) * 0.25 * random else 0.0
  }

  /** The longest delay with the most jitter. */
  function LongestSleep(c: RetryConfig): real {
    1.25 * c.maxDelay
  }

  /** `n` times `x`, added up. */
  function Times(n: nat, x: real): real {
    if n == 0 then 0.0 else Times(n - 1, x) + x
  }

  function Sum(xs: seq<real>): real {
    if xs == [] then 0.0 else Sum(xs[..|xs| - 1]) + xs[|xs| - 1]
  }

  /** The sleeps between calls: the delay of each attempt in turn. */
  ghost predicate Sleeps(sleeps: seq<real>, c: RetryConfig, random: nat -> real) {
    forall k: nat :: k < |sleeps| ==> sleeps[k] == RetryDelay(c, k, random(k))
  }

  ghost predicate UnitDraws(random: nat -> real) {
    forall k: nat :: 0.0 <= random(k) <= 1.0
  }

  lemma OneMore(a: real, x: real)
    ensures (a + 1.0) * x == a * x + x
  {
  }

  lemma {:induction false} TimesIsProduct(n: nat, x: real)
    ensures Times(n, x) == n as real * x
  {
    if n > 0 {
      TimesIsProduct(n - 1, x);
      OneMore((n - 1) as real, x);
    }
  }

  lemma {:induction false} TimesGrows(n: nat, m: nat, x: real)
    requires n <= m && x >= 0.0
    ensures Times(n, x) <= Times(m, x)
    decreases m
  {
    if n < m {
      TimesGrows(n, m - 1, x);
    }
  }

  predicate NoneAbove(xs: seq<real>, most: real) {
    forall k: nat :: k < |xs| ==> xs[k] <= most
  }

  lemma {:induction false} SumUpTo(xs: seq<real>, most: real)
    requires NoneAbove(xs, most)
    ensures Sum(xs) <= Times(|xs|, most)
  {
    if xs != [] {
      SumUpTo(xs[..|xs| - 1], most);
    }
  }

  lemma JitterIsBounded(d: real, most: real, random: real)
    requires d <= most && most >= 0.0 && 0.0 <= random <= 1.0
    ensures d + d * 0.25 * random <= 1.25 * most
  {
    assert d * 0.25 * random == 0.25 * (d * random);
    if d >= 0.0 {
      assert d * random <= d;
    } else {
      assert d * random <= 0.0;
    }
  }

  lemma DelayIsBounded(c: RetryConfig, attempt: nat, random: real)
    requires c.maxDelay >= 0.0 && 0.0 <= random <= 1.0
    ensures RetryDelay(c, attempt, random) <= LongestSleep(c)
  {
    JitterIsBounded(BaseDelay(c, attempt), c.maxDelay, random);
  }

  lemma EverySleepIsBounded(sleeps: seq<real>, c: RetryConfig, random: nat -> real)
    requires c.maxDelay >= 0.0 && Sleeps(sleeps, c, random) && UnitDraws(random)
    ensures NoneAbove(sleeps, LongestSleep(c))
  {
    forall k: nat | k < |sleeps|
      ensures sleeps[k] <= LongestSleep(c)
    {
      DelayIsBounded(c, k, random(k));
    }
  }

  /** All sleeps of a call together take at most the longest for each retry made, and so for each allowed. */
  lemma TotalIsBounded(sleeps: seq<real>, c: RetryConfig, random: nat -> real)
    requires Sleeps(sleeps, c, random) && |sleeps| <= c.maxRetries
    ensures c.maxDelay >= 0.0 && UnitDraws(random) ==>
              Sum(sleeps) <= Times(|sleeps|, LongestSleep(c)) <= Times(c.maxRetries, LongestSleep(c))
    ensures Times(|sleeps|, LongestSleep(c)) == |sleeps| as real * (1.25 * c.maxDelay)
    ensures Times(c.maxRetries, LongestSleep(c)) == c.maxRetries as real * (1.25 * c.maxDelay)
  {
    TimesIsProduct(|sleeps|, LongestSleep(c));
    TimesIsProduct(c.maxRetries, LongestSleep(c));
    if c.maxDelay >= 0.0 && UnitDraws(random) {
      EverySleepIsBounded(sleeps, c, random);
      SumUpTo(sleeps, LongestSleep(c));
      TimesGrows(|sleeps|, c.maxRetries, LongestSleep(c));
    }
  }

  /**
   The wrapper's loop over call outcomes. It makes calls up to the first that settles or the
   last retry, whichever comes first, and sleeps once between calls: in all for no longer
   than 1.25 times the longest delay for each retry allowed.
   */
  method WithRetry(outcomes: nat -> Outcome, c: RetryConfig, random: nat -> real)
    returns (result: Option<Outcome>, calls: nat, sleeps: seq<real>)
    ensures c.maxRetries < 0 ==> result.None? && calls == 0 && sleeps == []
    ensures c.maxRetries >= 0 ==>
              && 0 < calls <= c.maxRetries + 1
              && (forall k :: 0 <= k < calls - 1 ==> !Settles(outcomes(k)))
              && (calls <= c.maxRetries ==> Settles(outcomes(calls - 1)))
              && result == Some(outcomes(calls - 1))
              && |sleeps| == calls - 1 && Sleeps(sleeps, c, random)
              && (calls > 1 <==> c.maxRetries > 0 && outcomes(0).Failed? &&
                                 match outcomes(0).error
                                 case ConnectionError => true
                                 case TimeoutError => true
                                 case RateLimit => true
                                 case Api(status) => status.Some? && status.value >= 500
                                 case Authentication => false
                                 case ModelNotAvailable => false
                                 case OtherError => false)
              && (c.maxDelay >= 0.0 && UnitDraws(random) ==> Sum(sleeps) <= Times(c.maxRetries, LongestSleep(c)))
  {
    result, calls, sleeps := None, 0, [];
    while calls < c.maxRetries + 1
      invariant c.maxRetries >= 0 ==> calls <= c.maxRetries
      invariant c.maxRetries < 0 ==> calls == 0
      invariant forall k :: 0 <= k < calls ==> !Settles(outcomes(k))
      invariant |sleeps| == calls && Sleeps(sleeps, c, random) && result.None?
      decreases c.maxRetries + 1 - calls
    {
      var outcome := outcomes(calls);
      calls := calls + 1;
      if outcome.Success? || !IsRetryable(outcome.error) || calls - 1 >= c.maxRetries {
        result := Some(outcome);
        TotalIsBounded(sleeps, c, random);
        return;
      }
      sleeps := sleeps + [RetryDelay(c, calls - 1, random(calls - 1))];
    }
  }

  lemma ProductGrows(b: real, x: real)
    requires b >= 1.0 && x >= 0.0
    ensures b * x >= x
  {
    assert b * x - x == (b - 1.0) * x;
  }

  lemma {:induction false} PowerIsPositive(b: real, n: nat)
    requires b >= 1.0
    ensures Power(b, n) >= 1.0
  {
    if n > 0 {
      PowerIsPositive(b, n - 1);
      ProductGrows(b, Power(b, n - 1));
    }
  }

  lemma NextDelayGrows(c: RetryConfig, attempt: nat)
    requires c.base >= 1.0 && c.initialDelay >= 0.0
    ensures BaseDelay(c, attempt) <= BaseDelay(c, attempt + 1)
  {
    var p := Power(c.base, attempt);
    PowerIsPositive(c.base, attempt);
    assert c.initialDelay * p >= 0.0;
    ProductGrows(c.base, c.initialDelay * p);
    assert c.initialDelay * (c.base * p) == c.base * (c.initialDelay * p);
  }

  lemma ProductIsPositive(x: real, y: real)
    requires x >= 0.0 && y >= 0.0
    ensures x * y >= 0.0
  {
  }

  lemma SwapFactors(x: real, y: real, z: real)
    ensures x * (y * z) == y * (x * z)
  {
  }

  function Least(a: real, b: real): real {
    if a <= b then a else b
  }

  /** The delay of an attempt before it is capped, and the next one. */
  lemma Uncapped(c: RetryConfig, attempt: nat) returns (x: real, next: real)
    requires c.base >= 1.0 && c.initialDelay >= 0.0
    ensures x >= 0.0 && next == c.base * x
    ensures BaseDelay(c, 0) == Least(c.initialDelay, c.maxDelay)
    ensures BaseDelay(c, attempt) == Least(x, c.maxDelay) && BaseDelay(c, attempt + 1) == Least(next, c.maxDelay)
  {
    var p := Power(c.base, attempt);
    x, next := c.initialDelay * p, c.initialDelay * (c.base * p);
    PowerIsPositive(c.base, attempt);
    ProductIsPositive(c.initialDelay, p);
    SwapFactors(c.initialDelay, c.base, p);
  }

  lemma CappedStep(base: real, x: real, next: real, most: real)
    requires base >= 1.0 && x >= 0.0 && most >= 0.0 && next == base * x
    ensures Least(next, most) == Least(base * Least(x, most), most)
  {
    ProductGrows(base, x);
    ProductGrows(base, most);
    if x > most {
      assert base * x >= x;
    }
  }

  /**
   The delays before jitter, from one attempt to the next: the first is the initial delay, each
   further one the base times the one before, all of them capped.
   */
  lemma DelaysMultiply(c: RetryConfig, attempt: nat)
    requires c.base >= 1.0 && c.initialDelay >= 0.0 && c.maxDelay >= 0.0
    ensures BaseDelay(c, 0) == Least(c.initialDelay, c.maxDelay)
    ensures BaseDelay(c, attempt + 1) == Least(c.base * BaseDelay(c, attempt), c.maxDelay)
  {
    var x, next := Uncapped(c, attempt);
    CappedStep(c.base, x, next, c.maxDelay);
  }

  /** Jitter adds nothing at the least draw, and a quarter of the delay at the greatest. */
  lemma JitterRange(c: RetryConfig, attempt: nat, random: real)
    ensures RetryDelay(c, attempt, 0.0) == BaseDelay(c, attempt)
    ensures c.jitter ==> RetryDelay(c, attempt, 1.0) == 1.25 * BaseDelay(c, attempt)
    ensures !c.jitter ==> RetryDelay(c, attempt, random) == BaseDelay(c, attempt)
  {
  }

  /** Delays before jitter never shrink from one attempt to any later one. */
  lemma {:induction false} DelaysGrow(c: RetryConfig, i: nat, j: nat)
    requires c.base >= 1.0 && c.initialDelay >= 0.0 && i <= j
    ensures BaseDelay(c, i) <= BaseDelay(c, j)
    decreases j
  {
    if i < j {
      DelaysGrow(c, i, j - 1);
      NextDelayGrows(c, j - 1);
    }
  }

  // Opening a locked database

  datatype Attempt = Connected | Locked | OtherFailure

  datatype ConnectResult = Opened | DatabaseLocked | Propagated | NoAttempt

  const BACKOFF_BASE: real := 0.5

  /**
   Whatever the attempts return, the connector tries until the first one that is not locked
   or the last allowed, and has then slept exactly `(2^(attempts - 1) - 1) / 2` seconds.
   */
  method ConnectWithRetry(attempts: nat -> Attempt, maxRetries: int)
    returns (result: ConnectResult, made: nat, slept: real)
    ensures maxRetries <= 0 ==> result == NoAttempt && made == 0 && slept == 0.0
    ensures maxRetries > 0 ==>
              && 0 < made <= maxRetries
              && (forall k :: 0 <= k < made - 1 ==> attempts(k) == Locked)
              && (made < maxRetries ==> attempts(made - 1) != Locked)
              && slept == 0.5 * (Power(2.0, made - 1) - 1.0)
              && result == match attempts(made - 1)
                           case Connected => Opened
                           case Locked => DatabaseLocked
                           case OtherFailure => Propagated
  {
    result, made, slept := NoAttempt, 0, 0.0;
    while made < maxRetries
      invariant maxRetries > 0 ==> made < maxRetries
      invariant maxRetries <= 0 ==> made == 0
      invariant forall k :: 0 <= k < made ==> attempts(k) == Locked
      invariant slept == BACKOFF_BASE * (Power(2.0, made) - 1.0)
      invariant result == NoAttempt
    {
      var attempt := attempts(made);
      made := made + 1;
      match attempt
      case Connected =>
        result := Opened;
        return;
      case OtherFailure =>
        result := Propagated;
        return;
      case Locked =>
        if made - 1 >= maxRetries - 1 {
          result := DatabaseLocked;
          return;
        }
        slept := slept + BACKOFF_BASE * Power(2.0, made - 1);
    }
  }
}
