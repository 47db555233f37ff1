/** The two exponential backoff loops, on 64-bit durations, and the one function they compute. */
module Backoff {
  import opened Powers

  newtype int64 = x: int | -0x8000_0000_0000_0000 <= x < 0x8000_0000_0000_0000

  const DEFAULT_MAX: int64 := 30_000_000_000

  /** Twice the half of the cap, rounded down: where doubling stops. */
  function Knee(max: int): int {
    2 * (max / 2)
  }

  /** The delay after the n-th failure: the base doubled each time, until doubling would reach the cap. */
  function Delay(base: int, max: int, n: int): int {
    if n <= 1 then base
    else if base * Pow2(n - 1) >= Knee(max) then max
    else base * Pow2(n - 1)
  }

  lemma DoubleOnce(base: int, n: nat)
    ensures base * Pow2(n + 1) == 2 * (base * Pow2(n))
  {
  }

  lemma {:induction false} DoublingGrows(base: int, m: nat, n: nat)
    requires base > 0 && m <= n
    ensures base * Pow2(m) <= base * Pow2(n)
    decreases n
  {
    if m < n {
      DoublingGrows(base, m, n - 1);
      DoubleOnce(base, n - 1);
    }
  }

  /** The retry queue's loop; no product leaves the 64-bit range. */
  method RetryDelay(attempt: int64, base: int64, max: int64) returns (delay: int64)
    requires base > 0 && max > 0
    ensures delay as int == Delay(base as int, max as int, attempt as int)
  {
    if attempt <= 1 {
      return base;
    }
    delay := base;
    var i: int64 := 1;
    while i < attempt
      invariant 1 <= i <= attempt
      invariant delay as int == base as int * Pow2(i as int - 1)
      invariant i == 1 || delay as int < Knee(max as int)
    {
      if delay >= max / 2 {
        DoubleOnce(base as int, i as int - 1);
        DoublingGrows(base as int, i as int, attempt as int - 1);
        return max;
      }
      DoubleOnce(base as int, i as int - 1);
      delay := delay * 2;
      // The loop's second comparison with the cap can never hold.
      assert delay < max;
      i := i + 1;
    }
  }

  /** The registration recovery's loop, with its defaults. */
  method RecoveryDelay(failures: int64, base: int64, configuredMax: int64) returns (delay: int64)
    ensures delay as int == RecoveryBackoff(failures as int, base as int, configuredMax as int)
  {
    if failures <= 0 || base <= 0 {
      return 0;
    }
    var max := if configuredMax <= 0 then DEFAULT_MAX else configuredMax;
    delay := base;
    var i: int64 := 1;
    while i < failures
      invariant 1 <= i <= failures
      invariant delay as int == base as int * Pow2(i as int - 1)
      invariant i == 1 || delay as int < Knee(max as int)
    {
      DoubleOnce(base as int, i as int - 1);
      if delay >= max / 2 {
        DoublingGrows(base as int, i as int, failures as int - 1);
        delay := max;
        break;
      }
      delay := delay * 2;
      i := i + 1;
    }
    if delay > max {
      delay := max;
    }
  }

  function RecoveryBackoff(failures: int, base: int, configuredMax: int): (d: int)
    ensures d >= 0
  {
    var max := if configuredMax <= 0 then DEFAULT_MAX as int else configuredMax;
    if failures <= 0 || base <= 0 then 0
    else if failures == 1 && base > max then max
    else if failures == 1 then base
    else if base * Pow2(failures - 1) >= Knee(max) then max
    else base * Pow2(failures - 1)
  }

  /** Both loops compute the same delays exactly when the base is within the cap, or from the second failure on. */
  lemma LoopsAgreeIff(n: int, base: int, max: int)
    requires n >= 1 && base > 0 && max > 0
    ensures RecoveryBackoff(n, base, max) == Delay(base, max, n) <==> base <= max || n >= 2
  {
  }

  lemma {:induction false} Monotone(base: int, max: int, m: int, n: int)
    requires 0 < base <= max && m <= n
    ensures base <= Delay(base, max, m) <= Delay(base, max, n) <= max
  {
    if n > 1 {
      DoublingGrows(base, 0, n - 1);
      assert base * Pow2(0) == base;
      if m > 1 {
        DoublingGrows(base, 0, m - 1);
        DoublingGrows(base, m - 1, n - 1);
      }
    }
  }

  /** The delay is the capped doubling, except that an odd cap is returned in place of the value one below it. */
  lemma CappedDoubling(base: int, max: int, n: int)
    requires 0 < base <= max && n >= 1
    ensures var exact := if base * Pow2(n - 1) <= max then base * Pow2(n - 1) else max;
            if n >= 2 && max % 2 == 1 && exact == max - 1 then Delay(base, max, n) == max else Delay(base, max, n) == exact
  {
    assert base * Pow2(0) == base;
  }

  const THIRTY_SECONDS: int := 30_000_000_000

  /** The recovery delay of a positive base is the capped doubling, with thirty seconds where no cap is configured, and never above it. */
  lemma RecoveryIsCapped(failures: int, base: int, configuredMax: int)
    requires failures >= 1 && base > 0
    ensures var cap := if configuredMax <= 0 then THIRTY_SECONDS else configuredMax;
            var d := RecoveryBackoff(failures, base, configuredMax);
            && 0 < d <= cap
            && (base <= cap ==> d == Delay(base, cap, failures))
            && (base > cap ==> d == cap)
  {
    var cap := if configuredMax <= 0 then THIRTY_SECONDS else configuredMax;
    if base <= cap {
      LoopsAgreeIff(failures, base, cap);
      Monotone(base, cap, failures, failures);
    } else {
      DoublingGrows(base, 0, failures - 1);
      assert base * Pow2(0) == base;
    }
  }
}
