/** The `while not success` loop around `terraform apply` (run_terraform.py,
    lines 89-120). The outcomes of successive apply invocations are a finite
    script; `time.sleep` is recorded in a trace of durations instead of being
    performed, and `sys.exit(1)` ends the run in phase Exited. */
module RetryController {
  import opened Classifier
  import opened Backoff

  /** Retrying: the loop would invoke apply again. Succeeded: `success` is true.
      Exited: the script was terminated on an unknown error. */
  datatype Phase = Retrying | Succeeded | Exited

  /** The loop's variables: `retry_count`, `initial_wait`, `success` (with the
      fatal exit folded into the phase), and the sleeps made so far. */
  datatype State = State(retryCount: nat, wait: real, phase: Phase, sleeps: seq<real>)

  /** The state on entry to the loop (lines 90-92). */
  function Initial(): (st: State)
    ensures st.phase == Retrying && st.wait == InitialWait && InRange(st.wait)
    ensures st.retryCount == 0 && st.sleeps == []
  {
    State(0, InitialWait, Retrying, [])
  }

  /** Every sleep of the loop is a capacity sleep of a wait in [1, 60] or a
      rate-limit sleep of 120 plus such a wait. */
  predicate SleepInRange(d: real)
  {
    InRange(d) || InRange(d - RateLimitDelay)
  }

  /** One loop iteration: count the attempt, consume one apply result and act on
      its classification. */
  function Step(st: State, res: ApplyResult): (r: State)
    requires st.phase == Retrying
    ensures r.retryCount == st.retryCount + 1
    ensures r.phase == Retrying <==> !IsTerminal(Classify(res))
    ensures r.phase == Exited <==> Classify(res) == Fatal
    ensures r.phase == Succeeded ==> r.wait == InitialWait && r.sleeps == st.sleeps
    ensures r.phase == Exited ==> r.wait == st.wait && r.sleeps == st.sleeps
    ensures Classify(res) == Capacity ==> r.wait == st.wait && r.sleeps == st.sleeps + [st.wait]
    ensures Classify(res) == RateLimit ==>
      r.sleeps == st.sleeps + [RateLimitDelay + st.wait] && r.wait == NextWait(st.wait)
    ensures r.phase != Succeeded && 0.0 <= st.wait <= MaxWait ==> st.wait <= r.wait
    ensures InRange(st.wait) ==> InRange(r.wait)
    ensures InRange(st.wait) ==> forall i :: |st.sleeps| <= i < |r.sleeps| ==> SleepInRange(r.sleeps[i])
  {
    var n := st.retryCount + 1;
    match Classify(res)
    case Success => State(n, InitialWait, Succeeded, st.sleeps)
    case Capacity => State(n, st.wait, Retrying, st.sleeps + [st.wait])
    case RateLimit => State(n, NextWait(st.wait), Retrying, st.sleeps + [RateLimitDelay + st.wait])
    case Fatal => State(n, st.wait, Exited, st.sleeps)
  }

  /** The whole loop from state `st`, where `script[k]` is the result of apply
      invocation number k + 1: iterate until success, a fatal error, or the end of
      the script. */
  function Run(script: seq<ApplyResult>, st: State): (r: State)
    requires st.retryCount <= |script|
    ensures st.phase != Retrying ==> r == st
    ensures st.retryCount <= r.retryCount <= |script|
    ensures r.phase == Retrying ==> r.retryCount == |script|
    ensures r.phase == st.phase || st.phase == Retrying
    decreases |script| - st.retryCount
  {
    if st.phase != Retrying || st.retryCount == |script| then st
    else Run(script, Step(st, script[st.retryCount]))
  }

  /** The apply loop as the script runs it: the same variables updated the same way
      (lines 97-120), and its final state is the one `Run` specifies. */
  method RunApplyLoop(script: seq<ApplyResult>)
    returns (retryCount: nat, success: bool, wait: real, exited: bool, sleeps: seq<real>)
    ensures State(retryCount, wait, if success then Succeeded else if exited then Exited else Retrying, sleeps)
      == Run(script, Initial())
    ensures !(success && exited)
    ensures InRange(wait)
    ensures success ==> wait == InitialWait
    ensures retryCount <= |script|
    ensures !success && !exited ==> retryCount == |script|
  {
    retryCount, success, wait := 0, false, InitialWait;
    exited, sleeps := false, [];
    while !success
      invariant retryCount <= |script|
      invariant InRange(wait)
      invariant success ==> wait == InitialWait
      invariant Run(script, Initial())
        == Run(script, State(retryCount, wait, if success then Succeeded else Retrying, sleeps))
      decreases |script| - retryCount
    {
      if retryCount == |script| {
        return;
      }
      retryCount := retryCount + 1;
      var res := script[retryCount - 1];
      match Classify(res)
      case Success =>
        success := true;
        wait := InitialWait;
      case Capacity =>
        sleeps := sleeps + [wait];
      case RateLimit =>
        sleeps := sleeps + [RateLimitDelay + wait];
        wait := NextWait(wait);
      case Fatal =>
        exited := true;
        return;
    }
  }
}
