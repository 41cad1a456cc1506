/** Classification of one `terraform apply` result into the four outcomes the
    retry loop distinguishes (run_terraform.py, lines 104-120). */
module Classifier {
  import opened TextMatch

  /** What `run_command` hands back: captured stdout, stderr and the exit code. */
  datatype ApplyResult = ApplyResult(stdout: string, stderr: string, returncode: int)

  datatype Outcome = Success | Capacity | RateLimit | Fatal

  const InternalErrorMarker: string := "Error: 500-InternalError"
  const CapacityMarker: string := "capacity"
  const HostCapacityMarker: string := "Out of host capacity"
  const RateLimitCodeMarker: string := "429"
  const TooManyRequestsMarker: string := "Too Many Requests"

  /** The first `elif` chain test: one of the three capacity markers is in stdout. */
  predicate HasCapacityMarker(stdout: string)
  {
    Contains(stdout, InternalErrorMarker) || Contains(stdout, CapacityMarker)
      || Contains(stdout, HostCapacityMarker)
  }

  /** The second test: one of the two rate-limit markers is in stdout. */
  predicate HasRateLimitMarker(stdout: string)
  {
    Contains(stdout, RateLimitCodeMarker) || Contains(stdout, TooManyRequestsMarker)
  }

  /** Exit code 0 wins; otherwise capacity markers are tested before rate-limit
      markers, and a non-zero code matching neither is fatal. Only stdout is read. */
  function Classify(res: ApplyResult): (r: Outcome)
    ensures r == Success <==> res.returncode == 0
    ensures r == Capacity <==> res.returncode != 0 && HasCapacityMarker(res.stdout)
    ensures r == RateLimit <==>
      res.returncode != 0 && !HasCapacityMarker(res.stdout) && HasRateLimitMarker(res.stdout)
    ensures r == Fatal <==>
      res.returncode != 0 && !HasCapacityMarker(res.stdout) && !HasRateLimitMarker(res.stdout)
  {
    if res.returncode == 0 then Success
    else if HasCapacityMarker(res.stdout) then Capacity
    else if HasRateLimitMarker(res.stdout) then RateLimit
    else Fatal
  }

  /** Success and Fatal end the loop; the other two outcomes are retried. */
  predicate IsTerminal(o: Outcome)
  {
    o == Success || o == Fatal
  }

  /** Exit code 0 is a success whatever stdout and stderr contain. */
  lemma ZeroExitIsSuccess(stdout: string, stderr: string)
    ensures Classify(ApplyResult(stdout, stderr, 0)) == Success
  {
  }

  /** stderr is never inspected: two results that agree on stdout and exit code
      classify alike. */
  lemma StderrIgnored(a: ApplyResult, b: ApplyResult)
    requires a.stdout == b.stdout && a.returncode == b.returncode
    ensures Classify(a) == Classify(b)
  {
  }

  /** "Out of host capacity" contains "capacity", so the third capacity marker
      never changes the verdict: the word "capacity" alone decides. */
  lemma HostCapacityMarkerSubsumed(stdout: string)
    ensures Contains(stdout, HostCapacityMarker) ==> Contains(stdout, CapacityMarker)
    ensures HasCapacityMarker(stdout) <==>
      Contains(stdout, InternalErrorMarker) || Contains(stdout, CapacityMarker)
  {
    if Contains(stdout, HostCapacityMarker) {
      assert OccursAt(HostCapacityMarker, CapacityMarker, 12) by {
        assert HostCapacityMarker[12..20] == CapacityMarker;
      }
      ContainsTransitive(stdout, HostCapacityMarker, CapacityMarker, 12);
    }
  }

  /** Any failing result whose stdout contains "capacity" (in particular
      "Out of host capacity") is a capacity retry, even if it also carries a
      rate-limit marker such as "429". */
  lemma CapacityWordWins(res: ApplyResult)
    requires res.returncode != 0
    requires Contains(res.stdout, CapacityMarker)
    ensures Classify(res) == Capacity
  {
  }

  /** The same, for the full host-capacity message. */
  lemma HostCapacityMessageIsCapacity(res: ApplyResult)
    requires res.returncode != 0
    requires Contains(res.stdout, HostCapacityMarker)
    ensures Classify(res) == Capacity
    ensures Contains(res.stdout, CapacityMarker)
  {
    HostCapacityMarkerSubsumed(res.stdout);
  }
}
