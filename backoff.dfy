/** The wait-time arithmetic of the apply retry loop (run_terraform.py, lines 92-94,
    113, 116-117). Waits are exact reals; the float 1.1 is modelled as 11/10. */
module Backoff {

  const InitialWait: real := 1.0
  const MaxWait: real := 60.0
  const BackoffFactor: real := 1.1
  /** Fixed cool-down added to the backoff wait after a rate-limit error. */
  const RateLimitDelay: real := 120.0

  /** The range every wait of the loop stays in. */
  predicate InRange(w: real)
  {
    InitialWait <= w <= MaxWait
  }

  function Min(a: real, b: real): (m: real)
    ensures m <= a && m <= b && (m == a || m == b)
  {
    if a <= b then a else b
  }

  /** `min(max_wait, initial_wait * backoff_factor)`: the wait after a rate-limit error.
      It never shrinks a non-negative wait, never exceeds the maximum, grows strictly
      while below the maximum, and keeps a wait inside [1, 60] there. */
  function NextWait(w: real): (r: real)
    ensures r <= MaxWait
    ensures 0.0 <= w <= MaxWait ==> w <= r
    ensures 0.0 < w < MaxWait ==> w < r
    ensures InRange(w) ==> InRange(r)
    ensures w >= MaxWait / BackoffFactor ==> r == MaxWait
  {
    Min(MaxWait, w * BackoffFactor)
  }

  /** The uncapped wait `w * 1.1 ** n`, by repeated multiplication. */
  function Grown(w: real, n: nat): (g: real)
  {
    if n == 0 then w else Grown(w, n - 1) * BackoffFactor
  }

  /** The wait after `n` consecutive rate-limit errors, starting from `w`. */
  function NextWaitIter(w: real, n: nat): (r: real)
  {
    if n == 0 then w else NextWait(NextWaitIter(w, n - 1))
  }

  lemma {:induction false} GrownNonNegative(w: real, n: nat)
    requires 0.0 <= w
    ensures 0.0 <= Grown(w, n)
  {
    if n > 0 {
      GrownNonNegative(w, n - 1);
    }
  }

  /** Closed form: after `n` rate-limit errors the wait is min(60, w * 1.1 ** n);
      capping once per step is the same as capping the uncapped growth once. */
  lemma {:induction false} NextWaitIterClosedForm(w: real, n: nat)
    requires 0.0 <= w <= MaxWait
    ensures NextWaitIter(w, n) == Min(MaxWait, Grown(w, n))
  {
    if n > 0 {
      NextWaitIterClosedForm(w, n - 1);
      GrownNonNegative(w, n - 1);
    }
  }

  /** Along a streak of rate-limit errors the wait is non-decreasing and stays in [1, 60]. */
  lemma {:induction false} NextWaitIterMonotone(w: real, i: nat, j: nat)
    requires InRange(w)
    requires i <= j
    ensures InRange(NextWaitIter(w, i)) && InRange(NextWaitIter(w, j))
    ensures NextWaitIter(w, i) <= NextWaitIter(w, j)
  {
    if i < j {
      NextWaitIterMonotone(w, i, j - 1);
    } else if i > 0 {
      NextWaitIterMonotone(w, i - 1, j - 1);
    }
  }

  /** From the initial 1-second wait, 42 rate-limit errors leave the wait below the
      60-second cap (1.1 ** 42 is about 54.8) and 43 or more pin it at the cap
      (1.1 ** 43 is about 60.2). The intermediate values are exact powers of 11/10. */
  lemma CapReachedAfter43RateLimits()
    ensures NextWaitIter(InitialWait, 42) < MaxWait
    ensures forall n :: n >= 43 ==> NextWaitIter(InitialWait, n) == MaxWait
  {
    assert Grown(1.0, 10) == 2.5937424601;
    assert Grown(1.0, 20) == 6.72749994932560009201;
    assert Grown(1.0, 30) == 17.449402268886407318558803753801;
    assert Grown(1.0, 40) == 45.2592555681759518058893560348969204658401;
    assert Grown(1.0, 42) < MaxWait <= Grown(1.0, 43);
    NextWaitIterClosedForm(InitialWait, 42);
    NextWaitIterClosedForm(InitialWait, 43);
    forall n | n >= 43 ensures NextWaitIter(InitialWait, n) == MaxWait {
      NextWaitIterMonotone(InitialWait, 43, n);
    }
  }
}
