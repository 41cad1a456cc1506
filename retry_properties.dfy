/** What the apply retry loop guarantees over whole runs (run_terraform.py,
    lines 89-120), stated about `Run`. */
module RetryProperties {
  import opened TextMatch
  import opened Classifier
  import opened Backoff
  import opened RetryController

  predicate AllSleepsInRange(sleeps: seq<real>)
  {
    forall i :: 0 <= i < |sleeps| ==> SleepInRange(sleeps[i])
  }

  /** Invariants of the loop over any run: the wait stays in [1, 60], every sleep
      is in range, the sleep trace only grows, only a success lowers the wait, and
      every attempt except a final success or fatal error sleeps exactly once. */
  lemma {:induction false} RunInvariants(script: seq<ApplyResult>, st: State)
    requires st.retryCount <= |script|
    requires InRange(st.wait) && AllSleepsInRange(st.sleeps)
    requires st.phase == Succeeded ==> st.wait == InitialWait
    ensures var fin := Run(script, st);
      && st.retryCount <= fin.retryCount <= |script|
      && |st.sleeps| <= |fin.sleeps|
      && InRange(fin.wait)
      && AllSleepsInRange(fin.sleeps)
      && fin.sleeps[..|st.sleeps|] == st.sleeps
      && (fin.phase == Retrying ==> fin.retryCount == |script|)
      && (fin.phase != Succeeded ==> st.wait <= fin.wait)
      && (fin.phase == Succeeded ==> fin.wait == InitialWait)
      && (st.phase == Retrying ==>
            |fin.sleeps| + (if fin.phase == Retrying then 0 else 1)
              == |st.sleeps| + fin.retryCount - st.retryCount)
    decreases |script| - st.retryCount
  {
    if st.phase == Retrying && st.retryCount < |script| {
      var next := Step(st, script[st.retryCount]);
      assert AllSleepsInRange(next.sleeps) by {
        forall i | 0 <= i < |next.sleeps| ensures SleepInRange(next.sleeps[i]) {
          if i < |st.sleeps| {
            assert next.sleeps[i] == st.sleeps[i];
          }
        }
      }
      RunInvariants(script, next);
      var fin := Run(script, next);
      assert fin.sleeps[..|st.sleeps|] == next.sleeps[..|next.sleeps|][..|st.sleeps|];
    }
  }

  /** The wait stays within [1, 60] across every run of the loop from its start. */
  lemma WaitAlwaysInRange(script: seq<ApplyResult>)
    ensures InRange(Run(script, Initial()).wait)
    ensures AllSleepsInRange(Run(script, Initial()).sleeps)
  {
    RunInvariants(script, Initial());
  }

  /** The loop stops at the first success or fatal error: exactly k + 1 applies have
      been invoked, none of the later results is consumed, a success resets the wait
      to 1 and a fatal error ends the run in phase Exited. */
  lemma {:induction false} RunStopsAtFirstTerminal(script: seq<ApplyResult>, st: State, k: nat)
    requires st.phase == Retrying
    requires st.retryCount <= k < |script|
    requires IsTerminal(Classify(script[k]))
    requires forall j :: st.retryCount <= j < k ==> !IsTerminal(Classify(script[j]))
    ensures Run(script, st).retryCount == k + 1
    ensures Classify(script[k]) == Success ==>
      Run(script, st).phase == Succeeded && Run(script, st).wait == InitialWait
    ensures Classify(script[k]) == Fatal ==> Run(script, st).phase == Exited
    decreases k - st.retryCount
  {
    var next := Step(st, script[st.retryCount]);
    if st.retryCount < k {
      RunStopsAtFirstTerminal(script, next, k);
    }
  }

  /** While every result is a capacity or rate-limit error the loop keeps retrying
      and consumes the whole script. */
  lemma {:induction false} RunWithoutTerminal(script: seq<ApplyResult>, st: State)
    requires st.phase == Retrying
    requires st.retryCount <= |script|
    requires forall j :: st.retryCount <= j < |script| ==> !IsTerminal(Classify(script[j]))
    ensures Run(script, st).phase == Retrying
    ensures Run(script, st).retryCount == |script|
    decreases |script| - st.retryCount
  {
    if st.retryCount < |script| {
      RunWithoutTerminal(script, Step(st, script[st.retryCount]));
    }
  }

  /** Capacity errors never escalate the wait: a streak of them sleeps the same
      wait each time and leaves it unchanged. */
  lemma {:induction false} CapacityStreak(script: seq<ApplyResult>, st: State)
    requires st.phase == Retrying
    requires st.retryCount <= |script|
    requires forall j :: st.retryCount <= j < |script| ==> Classify(script[j]) == Capacity
    ensures Run(script, st).wait == st.wait
    ensures Run(script, st).sleeps == st.sleeps + seq(|script| - st.retryCount, _ => st.wait)
    decreases |script| - st.retryCount
  {
    if st.retryCount < |script| {
      var next := Step(st, script[st.retryCount]);
      CapacityStreak(script, next);
      assert next.sleeps + seq(|script| - next.retryCount, _ => st.wait)
          == st.sleeps + seq(|script| - st.retryCount, _ => st.wait);
    }
  }

  lemma {:induction false} NextWaitIterShift(w: real, i: nat)
    ensures NextWaitIter(NextWait(w), i) == NextWaitIter(w, i + 1)
  {
    if i > 0 {
      NextWaitIterShift(w, i - 1);
    }
  }

  /** A streak of m rate-limit errors sleeps 120 + min(60, w * 1.1 ** i) on the
      i-th of them and ends with wait min(60, w * 1.1 ** m). */
  lemma {:induction false} RateLimitStreak(script: seq<ApplyResult>, st: State)
    requires st.phase == Retrying
    requires st.retryCount <= |script|
    requires 0.0 <= st.wait <= MaxWait
    requires forall j :: st.retryCount <= j < |script| ==> Classify(script[j]) == RateLimit
    ensures Run(script, st).wait == NextWaitIter(st.wait, |script| - st.retryCount)
    ensures |Run(script, st).sleeps| == |st.sleeps| + |script| - st.retryCount
    ensures Run(script, st).sleeps[..|st.sleeps|] == st.sleeps
    ensures forall i :: 0 <= i < |script| - st.retryCount ==>
      Run(script, st).sleeps[|st.sleeps| + i] == RateLimitDelay + NextWaitIter(st.wait, i)
    decreases |script| - st.retryCount
  {
    if st.retryCount < |script| {
      var next := Step(st, script[st.retryCount]);
      RateLimitStreak(script, next);
      var fin := Run(script, next);
      var m := |script| - st.retryCount;
      NextWaitIterShift(st.wait, m - 1);
      forall i | 0 <= i < m
        ensures fin.sleeps[|st.sleeps| + i] == RateLimitDelay + NextWaitIter(st.wait, i)
      {
        if i > 0 {
          NextWaitIterShift(st.wait, i - 1);
          assert fin.sleeps[|next.sleeps| + (i - 1)] == RateLimitDelay + NextWaitIter(next.wait, i - 1);
        } else {
          assert fin.sleeps[..|next.sleeps|] == next.sleeps;
          assert fin.sleeps[|st.sleeps|] == fin.sleeps[..|next.sleeps|][|st.sleeps|];
        }
      }
      assert fin.sleeps[..|st.sleeps|] == fin.sleeps[..|next.sleeps|][..|st.sleeps|];
    }
  }

  /** During consecutive rate-limit errors from the loop's start the wait, and so
      each sleep, never decreases and never exceeds the cap. */
  lemma RateLimitSleepsNonDecreasing(script: seq<ApplyResult>, i: nat, j: nat)
    requires forall k :: 0 <= k < |script| ==> Classify(script[k]) == RateLimit
    requires i <= j < |script|
    ensures |Run(script, Initial()).sleeps| == |script|
    ensures Run(script, Initial()).sleeps[i] <= Run(script, Initial()).sleeps[j]
    ensures Run(script, Initial()).sleeps[j] <= RateLimitDelay + MaxWait
  {
    var st := Initial();
    RateLimitStreak(script, st);
    var fin := Run(script, st);
    assert fin.sleeps[i] == RateLimitDelay + NextWaitIter(InitialWait, i);
    assert fin.sleeps[j] == RateLimitDelay + NextWaitIter(InitialWait, j);
    NextWaitIterMonotone(InitialWait, i, j);
  }

  /** Results after the one that ended the run are never consulted: appending more
      apply results to the script does not change a finished run. */
  lemma {:induction false} RunIgnoresLaterResults(script: seq<ApplyResult>, more: seq<ApplyResult>, st: State)
    requires st.retryCount <= |script|
    requires Run(script, st).phase != Retrying
    ensures Run(script + more, st) == Run(script, st)
    decreases |script| - st.retryCount
  {
    if st.phase == Retrying {
      assert (script + more)[st.retryCount] == script[st.retryCount];
      RunIgnoresLaterResults(script, more, Step(st, script[st.retryCount]));
    }
  }
}

/** A worked run of the loop: two "429 Too Many Requests" failures, then success. */
module RetryScenario {
  import opened TextMatch
  import opened Classifier
  import opened Backoff
  import opened RetryController

  const TooManyRequestsText: string := "429 Too Many Requests"
  const TooManyRequests: ApplyResult := ApplyResult(TooManyRequestsText, "", 1)
  const Created: ApplyResult := ApplyResult("Apply complete!", "", 0)

  lemma TooManyRequestsLetters(s: string)
    requires s == TooManyRequestsText
    ensures forall i :: 0 <= i < |s| ==> s[i] != 'c' && s[i] != 'O'
  {
  }

  /** The text has neither "capacity" nor "Out of host capacity" in it (no 'c', no
      'O'), and is too short for the internal-error marker. */
  lemma TooManyRequestsNoCapacityMarker(s: string)
    requires s == TooManyRequestsText
    ensures !HasCapacityMarker(s)
  {
    TooManyRequestsLetters(s);
    AbsentFirstChar(s, CapacityMarker);
    AbsentFirstChar(s, HostCapacityMarker);
  }

  lemma TooManyRequestsHasRateLimitMarker(s: string)
    requires s == TooManyRequestsText
    ensures HasRateLimitMarker(s)
  {
    assert OccursAt(s, RateLimitCodeMarker, 0);
  }

  lemma TooManyRequestsIsRateLimit()
    ensures Classify(TooManyRequests) == RateLimit
  {
    TooManyRequestsNoCapacityMarker(TooManyRequests.stdout);
    TooManyRequestsHasRateLimitMarker(TooManyRequests.stdout);
  }

  /** Two rate-limit failures then a success: sleeps of 121 and 121.1 seconds,
      waits 1 -> 1.1 -> 1.21, and after the third attempt the wait is back to 1. */
  lemma RateLimitTwiceThenSuccess(a: ApplyResult, b: ApplyResult, c: ApplyResult)
    requires Classify(a) == RateLimit && Classify(b) == RateLimit && c.returncode == 0
    ensures Run([a], Initial()) == State(1, 1.1, Retrying, [121.0])
    ensures Run([a, b], Initial()) == State(2, 1.21, Retrying, [121.0, 121.1])
    ensures Run([a, b, c], Initial()) == State(3, InitialWait, Succeeded, [121.0, 121.1])
  {
    var script := [a, b, c];
    var s1 := Step(Initial(), script[0]);
    assert s1 == State(1, 1.1, Retrying, [121.0]);
    var s2 := Step(s1, script[1]);
    assert s2 == State(2, 1.21, Retrying, [121.0, 121.1]);
    var s3 := Step(s2, script[2]);
    assert s3 == State(3, InitialWait, Succeeded, [121.0, 121.1]);
    assert Run(script, s2) == s3;
    assert Run(script, s1) == s3;
    assert Step(Initial(), a) == s1 && Step(s1, b) == s2;
    assert Run([a], s1) == s1;
    assert Run([a, b], s2) == s2;
    assert Run([a, b], s1) == s2;
  }

  /** The same run with the actual "429 Too Many Requests" text. */
  lemma TooManyRequestsTwiceThenCreated()
    ensures Run([TooManyRequests, TooManyRequests, Created], Initial())
      == State(3, InitialWait, Succeeded, [121.0, 121.1])
  {
    TooManyRequestsIsRateLimit();
    RateLimitTwiceThenSuccess(TooManyRequests, TooManyRequests, Created);
  }
}
