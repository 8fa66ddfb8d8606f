/**
 The queue's exponential backoff: the delay before each retry, and the total wait of a
 task that is retried to the end. Delays are exact reals, in milliseconds.
 */
module Backoff {

  datatype RetryConfig = RetryConfig(maxRetries: nat, initialDelayMs: real, maxDelayMs: real, backoffMultiplier: real) {

    /** Delays are not negative and the multiplier does not shrink them. */
    predicate Growing() {
      initialDelayMs >= 0.0 && maxDelayMs >= 0.0 && backoffMultiplier >= 1.0
    }
  }

  function Power(x: real, n: nat): real {
    if n == 0 then 1.0 else x * Power(x, n - 1)
  }

  function Exponential(config: RetryConfig, attempt: nat): real
    requires attempt >= 1
  {
    config.initialDelayMs * Power(config.backoffMultiplier, attempt - 1)
  }

  function CalculateBackoffDelay(attempt: nat, config: RetryConfig): real
    requires attempt >= 1
  {
    var exponential := Exponential(config, attempt);
    if exponential <= config.maxDelayMs then exponential else config.maxDelayMs
  }

  lemma ScaleMonotone(x: real, a: real, b: real)
    requires x >= 0.0 && a <= b
    ensures x * a <= x * b
  {
    assert x * (b - a) >= 0.0;
  }

  lemma {:induction false} PowerGrows(x: real, i: nat, j: nat)
    requires x >= 1.0 && i <= j
    ensures 1.0 <= Power(x, i) <= Power(x, j)
    decreases j
  {
    if 0 < j {
      if i < j {
        PowerGrows(x, i, j - 1);
        ScaleMonotone(Power(x, j - 1), 1.0, x);
      } else {
        PowerGrows(x, i - 1, i - 1);
        ScaleMonotone(Power(x, i - 1), 1.0, x);
      }
    }
  }

  lemma ExponentialGrows(config: RetryConfig, i: nat, j: nat)
    requires config.Growing() && 1 <= i <= j
    ensures 0.0 <= Exponential(config, i) <= Exponential(config, j)
  {
    var x := config.backoffMultiplier;
    PowerGrows(x, i - 1, j - 1);
    ScaleMonotone(config.initialDelayMs, 0.0, Power(x, i - 1));
    ScaleMonotone(config.initialDelayMs, Power(x, i - 1), Power(x, j - 1));
  }

  /** Delays never shrink and never exceed the cap. */
  lemma DelaysAreMonotoneAndCapped(config: RetryConfig, i: nat, j: nat)
    requires config.Growing() && 1 <= i <= j
    ensures 0.0 <= CalculateBackoffDelay(i, config) <= CalculateBackoffDelay(j, config) <= config.maxDelayMs
  {
    ExponentialGrows(config, i, j);
  }

  /** The number of attempts, up to n, whose delay is still the uncapped geometric one. */
  function Crossover(config: RetryConfig, n: nat): (k: nat)
    ensures k <= n
  {
    if n == 0 then 0
    else if Exponential(config, n) <= config.maxDelayMs then n
    else Crossover(config, n - 1)
  }

  /** Up to the crossover attempt the delays are geometric, and from then on they are the cap. */
  lemma {:induction false} GeometricThenCapped(config: RetryConfig, n: nat, i: nat)
    requires config.Growing() && 1 <= i <= n
    ensures CalculateBackoffDelay(i, config) ==
            if i <= Crossover(config, n) then Exponential(config, i)
            else config.maxDelayMs
  {
    hide Exponential;
    if Exponential(config, n) <= config.maxDelayMs {
      ExponentialGrows(config, i, n);
    } else if i < n {
      GeometricThenCapped(config, n - 1, i);
    }
  }

  /** The time a task spends waiting over its first n retries. */
  function TotalWait(config: RetryConfig, n: nat): real {
    if n == 0 then 0.0 else TotalWait(config, n - 1) + CalculateBackoffDelay(n, config)
  }

  /** The crossover of a longer run does not move once the cap has been reached. */
  lemma {:induction false} CrossoverStays(config: RetryConfig, n: nat)
    requires config.Growing() && 1 <= n
    ensures Crossover(config, n) ==
            if Exponential(config, n) <= config.maxDelayMs then n
            else Crossover(config, n - 1)
    ensures Exponential(config, n) <= config.maxDelayMs ==>
              Crossover(config, n - 1) == n - 1
  {
    hide Exponential;
    if 2 <= n {
      ExponentialGrows(config, n - 1, n);
    }
  }

  lemma GeometricStep(q: real, d: real, p: real, w: real)
    requires (q - 1.0) * w == d * (p - 1.0)
    ensures (q - 1.0) * (w + d * p) == d * (q * p - 1.0)
  {
    var t := d * p;
    assert (q - 1.0) * (w + t) == (q - 1.0) * w + (q - 1.0) * t;
    assert (q - 1.0) * t == q * t - t;
    assert q * t == d * (q * p);
    assert d * (q * p - 1.0) == d * (q * p) - d;
    assert d * (p - 1.0) == t - d;
  }

  lemma ExponentialIs(config: RetryConfig, n: nat)
    requires 1 <= n
    ensures Exponential(config, n) == config.initialDelayMs * Power(config.backoffMultiplier, n - 1)
  {
  }

  lemma OneMore(n: nat, x: real)
    ensures (n + 1) as real * x == n as real * x + x
  {
  }

  /** The total wait less the attempts that waited the full cap. */
  function UncappedWait(config: RetryConfig, n: nat): real {
    TotalWait(config, n) - (n - Crossover(config, n)) as real * config.maxDelayMs
  }

  lemma UncappedWaitStep(config: RetryConfig, n: nat)
    requires config.Growing() && 1 <= n
    ensures if Exponential(config, n) <= config.maxDelayMs
            then Crossover(config, n) == n && Crossover(config, n - 1) == n - 1 &&
                 UncappedWait(config, n) == UncappedWait(config, n - 1) + Exponential(config, n)
            else Crossover(config, n) == Crossover(config, n - 1) &&
                 UncappedWait(config, n) == UncappedWait(config, n - 1)
  {
    hide Exponential;
    hide Crossover;
    CrossoverStays(config, n);
    if Exponential(config, n) > config.maxDelayMs {
      OneMore(n - 1 - Crossover(config, n - 1), config.maxDelayMs);
    }
  }

  lemma {:induction false} PowerOfOne(n: nat)
    ensures Power(1.0, n) == 1.0
  {
    if 0 < n {
      PowerOfOne(n - 1);
    }
  }

  lemma ConstantWaitStep(config: RetryConfig, n: nat)
    requires config.Growing() && 1 <= n && config.backoffMultiplier == 1.0
    requires UncappedWait(config, n - 1) == Crossover(config, n - 1) as real * config.initialDelayMs
    ensures UncappedWait(config, n) == Crossover(config, n) as real * config.initialDelayMs
  {
    ExponentialIs(config, n);
    PowerOfOne(n - 1);
    UncappedWaitStep(config, n);
    OneMore(n - 1, config.initialDelayMs);
    hide *;
  }

  lemma NothingWaited(config: RetryConfig)
    ensures UncappedWait(config, 0) == 0.0 && Crossover(config, 0) == 0
    ensures Power(config.backoffMultiplier, Crossover(config, 0)) - 1.0 == 0.0
  {
  }

  lemma TotalWaitStep(config: RetryConfig, n: nat)
    requires config.Growing() && 1 <= n
    requires (config.backoffMultiplier - 1.0) * UncappedWait(config, n - 1)
             == config.initialDelayMs * (Power(config.backoffMultiplier, Crossover(config, n - 1)) - 1.0)
    ensures (config.backoffMultiplier - 1.0) * UncappedWait(config, n)
            == config.initialDelayMs * (Power(config.backoffMultiplier, Crossover(config, n)) - 1.0)
  {
    hide Exponential;
    hide Crossover;
    hide UncappedWait;
    UncappedWaitStep(config, n);
    if Exponential(config, n) <= config.maxDelayMs {
      var q := config.backoffMultiplier;
      GeometricStep(q, config.initialDelayMs, Power(q, n - 1), UncappedWait(config, n - 1));
      ExponentialIs(config, n);
    }
  }

  /** (multiplier - 1) times the wait is a difference of powers. */
  lemma {:induction false} GeometricWait(config: RetryConfig, n: nat)
    requires config.Growing()
    ensures (config.backoffMultiplier - 1.0) * UncappedWait(config, n)
            == config.initialDelayMs * (Power(config.backoffMultiplier, Crossover(config, n)) - 1.0)
  {
    hide *;
    if 0 < n {
      GeometricWait(config, n - 1);
      TotalWaitStep(config, n);
    } else {
      NothingWaited(config);
    }
  }

  lemma {:induction false} ConstantWait(config: RetryConfig, n: nat)
    requires config.Growing() && config.backoffMultiplier == 1.0
    ensures UncappedWait(config, n) == Crossover(config, n) as real * config.initialDelayMs
  {
    hide UncappedWait;
    hide Crossover;
    if 0 < n {
      ConstantWait(config, n - 1);
      ConstantWaitStep(config, n);
    } else {
      NothingWaited(config);
    }
  }

  /** The first k terms of the geometric sequence, summed. */
  function GeometricSum(config: RetryConfig, k: nat): real {
    if config.backoffMultiplier == 1.0 then k as real * config.initialDelayMs
    else config.initialDelayMs * (Power(config.backoffMultiplier, k) - 1.0) / (config.backoffMultiplier - 1.0)
  }

  lemma UncappedWaitIsGeometric(config: RetryConfig, n: nat)
    requires config.Growing()
    ensures UncappedWait(config, n) == GeometricSum(config, Crossover(config, n))
  {
    hide UncappedWait;
    hide Crossover;
    hide Power;
    if config.backoffMultiplier == 1.0 {
      ConstantWait(config, n);
    } else {
      GeometricWait(config, n);
      Quotient(config.backoffMultiplier - 1.0, UncappedWait(config, n),
               config.initialDelayMs * (Power(config.backoffMultiplier, Crossover(config, n)) - 1.0));
    }
  }

  /**
   The total wait in closed form: the geometric sum up to the crossover, then the cap for
   every remaining retry.
   */
  lemma TotalWaitClosedForm(config: RetryConfig, n: nat)
    requires config.Growing()
    ensures TotalWait(config, n) == GeometricSum(config, Crossover(config, n))
                                    + (n - Crossover(config, n)) as real * config.maxDelayMs
  {
    UncappedWaitIsGeometric(config, n);
    hide GeometricSum;
    hide Crossover;
    WaitSplits(config, n);
  }

  lemma WaitSplits(config: RetryConfig, n: nat)
    ensures TotalWait(config, n) == (n - Crossover(config, n)) as real * config.maxDelayMs + UncappedWait(config, n)
  {
  }

  lemma Quotient(d: real, x: real, y: real)
    requires d != 0.0 && d * x == y
    ensures x == y / d
  {
  }

  lemma {:induction false} TotalWaitBounded(config: RetryConfig, n: nat)
    requires config.Growing()
    ensures TotalWait(config, n) <= n as real * config.maxDelayMs
  {
    if 0 < n {
      TotalWaitBounded(config, n - 1);
      DelaysAreMonotoneAndCapped(config, n, n);
      OneMore(n - 1, config.maxDelayMs);
    }
  }

  /** The deletion of an empty server is retried ten times, from one minute up to ten, over 75 minutes. */
  lemma DeletionWaits75Minutes()
    ensures TotalWait(RetryConfig(10, 60000.0, 600000.0, 2.0), 10) == 4500000.0
    ensures Crossover(RetryConfig(10, 60000.0, 600000.0, 2.0), 10) == 4
  {
    var c := RetryConfig(10, 60000.0, 600000.0, 2.0);
    assert Power(2.0, 3) == 8.0;
    assert TotalWait(c, 4) == 900000.0;
    assert Power(2.0, 6) == 64.0;
    assert TotalWait(c, 7) == 2700000.0;
    assert Power(2.0, 9) == 512.0;
    assert Crossover(c, 7) == 4;
  }
}
