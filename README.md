# Retry/backoff controller of the OCI ARM instance deployment script

`my-oci-host-capcity/run_terraform.py` installs Terraform, runs `terraform init`
and then calls `terraform apply -auto-approve` in a loop until an instance is
created. This project models that loop and proves what it guarantees. Each failed
apply is classified from its stdout into a host-capacity error, a rate-limit
error or an unknown error. Capacity errors are retried after the current wait
(1 second to begin with). Rate-limit errors are retried after 120 seconds plus
the wait, and the wait then grows by a factor of 1.1, capped at 60 seconds. An
unknown error ends the script, and a success resets the wait to 1.

Modules:

- `TextMatch` (text_match.dfy): Python's `needle in haystack` on strings.
- `Classifier` (classifier.dfy): the apply result `(stdout, stderr, returncode)`,
  the marker strings and `Classify`, which gives one of four outcomes: Success,
  Capacity, RateLimit or Fatal.
- `Backoff` (backoff.dfy): the constants 1, 60, 1.1 and 120, the wait update
  `min(60, wait * 1.1)`, and its iteration in closed form.
- `RetryController` (retry_controller.dfy): the loop state (`retry_count`, the
  wait, success or exit, and the sleeps made so far). One loop iteration is
  `Step` and the whole loop is the specification function `Run`.
  `RunApplyLoop` is the loop itself, written imperatively with the script's own
  variables, and it is proved to end in the state `Run` gives.
- `RetryProperties` and `RetryScenario` (retry_properties.dfy): lemmas about
  whole runs, and the worked run "429, 429, success".

Apply results are given as a finite script: attempt number k consumes
`script[k - 1]`. `time.sleep(d)` appends `d` to a trace of sleeps instead of
waiting. `sys.exit(1)` on an unknown error ends the run in phase `Exited`.

## Model

| member | source | states |
|---|---|---|
| `TextMatch.Contains` | my-oci-host-capcity/run_terraform.py:111-114 | `p in s` holds exactly when `p` occurs at some index of `s` |
| `Classifier.Classify` | my-oci-host-capcity/run_terraform.py:104-120 | Success iff the exit code is 0. Capacity iff the code is non-zero and stdout has a capacity marker. RateLimit iff the code is non-zero, there is no capacity marker and there is a rate-limit marker. Fatal iff the code is non-zero and neither kind of marker is present |
| `Classifier.ZeroExitIsSuccess` | my-oci-host-capcity/run_terraform.py:104-108 | exit code 0 is a success whatever stdout and stderr contain |
| `Classifier.StderrIgnored` | my-oci-host-capcity/run_terraform.py:110-114 | two results with the same stdout and exit code classify alike, so stderr is never inspected |
| `Classifier.HostCapacityMarkerSubsumed` | my-oci-host-capcity/run_terraform.py:111 | "Out of host capacity" in stdout implies "capacity" in stdout, so the third capacity test never changes the verdict |
| `Classifier.CapacityWordWins` | my-oci-host-capcity/run_terraform.py:111-114 | a failing result whose stdout contains "capacity" is a capacity retry, even when it also contains "429" or "Too Many Requests" |
| `Classifier.HostCapacityMessageIsCapacity` | my-oci-host-capcity/run_terraform.py:111 | a failing result reporting "Out of host capacity" is a capacity retry |
| `Backoff.NextWait` | my-oci-host-capcity/run_terraform.py:117 | the new wait never exceeds 60 and never shrinks a wait in [0, 60]. It grows strictly below 60, keeps a wait inside [1, 60], and is exactly 60 once `wait * 1.1 >= 60` |
| `Backoff.NextWaitIterClosedForm` | my-oci-host-capcity/run_terraform.py:116-117 | after n rate-limit errors from wait w the wait is `min(60, w * 1.1^n)` |
| `Backoff.NextWaitIterMonotone` | my-oci-host-capcity/run_terraform.py:117 | along a streak of rate-limit errors the wait is non-decreasing and stays in [1, 60] |
| `Backoff.CapReachedAfter43RateLimits` | my-oci-host-capcity/run_terraform.py:92-117 | from the initial wait of 1, the wait is still below 60 after 42 rate-limit errors and is exactly 60 after 43 or more |
| `RetryController.Initial` | my-oci-host-capcity/run_terraform.py:90-92 | the loop starts retrying with count 0, wait 1 and no sleeps |
| `RetryController.Step` | my-oci-host-capcity/run_terraform.py:98-120 | one iteration adds 1 to the count. Success stops with wait reset to 1 and no sleep. Capacity sleeps the current wait and keeps it. RateLimit sleeps 120 plus the wait, then applies the wait update. Fatal exits with no sleep. Only a success lowers the wait, and a wait in [1, 60] stays there |
| `RetryController.Run` | my-oci-host-capcity/run_terraform.py:97-120 | the whole loop: it iterates `Step` over `script[retryCount]` until Succeeded, Exited or the script runs out. A finished state is returned unchanged, the count never decreases and never passes the script's length, and a run still retrying has used every result |
| `RetryController.RunApplyLoop` | my-oci-host-capcity/run_terraform.py:89-120 | the imperative loop ends in exactly the state `Run` specifies. Its final wait is in [1, 60] and is 1 after a success. It never both succeeds and exits, and it stops short of the script's end only on success or a fatal error |
| `RetryProperties.RunInvariants` | my-oci-host-capcity/run_terraform.py:97-120 | over any run the wait stays in [1, 60] and every sleep is in [1, 60] or [121, 180]. Earlier sleeps are kept, only a success lowers the wait, and a run still retrying has used the whole script. Every attempt sleeps exactly once, except a final success or fatal error |
| `RetryProperties.WaitAlwaysInRange` | my-oci-host-capcity/run_terraform.py:92-117 | from the loop's start the wait never leaves [1, 60] and every sleep is in range |
| `RetryProperties.RunStopsAtFirstTerminal` | my-oci-host-capcity/run_terraform.py:97-120 | if the first success or unknown error is result k, exactly k + 1 applies are invoked (`retry_count` counts invocations) and no later result is consumed. A success ends with the wait reset to 1, and an unknown error ends in Exited |
| `RetryProperties.RunWithoutTerminal` | my-oci-host-capcity/run_terraform.py:97-117 | while every result is a capacity or rate-limit error the loop keeps retrying through the whole script |
| `RetryProperties.CapacityStreak` | my-oci-host-capcity/run_terraform.py:111-113 | a streak of capacity errors leaves the wait unchanged and sleeps exactly that wait each time |
| `RetryProperties.RateLimitStreak` | my-oci-host-capcity/run_terraform.py:114-117 | in a streak of rate-limit errors, sleep i is 120 plus the wait after i escalations, and the final wait is the wait after m escalations |
| `RetryProperties.RateLimitSleepsNonDecreasing` | my-oci-host-capcity/run_terraform.py:114-117 | from the start, the sleeps of consecutive rate-limit errors never decrease and never exceed 180 |
| `RetryProperties.RunIgnoresLaterResults` | my-oci-host-capcity/run_terraform.py:104-120 | once a run has succeeded or exited, appending more apply results does not change it, so no further apply is invoked |
| `RetryScenario.TooManyRequestsIsRateLimit` | my-oci-host-capcity/run_terraform.py:111-114 | a failing "429 Too Many Requests" is a rate-limit error |
| `RetryScenario.RateLimitTwiceThenSuccess` | my-oci-host-capcity/run_terraform.py:97-117 | two rate-limit errors, then a success, give sleeps of 121 and 121.1 and waits 1.1 then 1.21. Three attempts are made, and the wait ends back at 1 |
| `RetryScenario.TooManyRequestsTwiceThenCreated` | my-oci-host-capcity/run_terraform.py:97-117 | the same run with the literal "429 Too Many Requests" stdout |

stderr is printed at line 110, but the marker tests at lines 111 and 114 read
only stdout, so the model classifies from stdout and the exit code
(`Classifier.StderrIgnored`).

## Left out

- `run_command` (lines 9-16): subprocess execution. Apply results are an input script of `(stdout, stderr, returncode)` values, and its exception exit path is not modelled.
- Terraform download and installation (lines 18-40): network access, zip extraction and apt calls.
- Operating-system and distribution detection, and `os.chdir` (lines 47-71): environment plumbing. The script uses `platform.linux_distribution`, which modern Python lacks, and it always runs `terraform.exe` at line 74, even on Linux.
- The installed check `"Terraform v" in stdout`: at lines 57 and 64 it chooses whether to install the tool, and at line 75 it only chooses which message to print (lines 76 and 78).
- `terraform init` (lines 81-87): an external call whose only logic is that a non-zero exit code ends the script (lines 84-86).
- `terraform output` (lines 123-125): an external call whose output is printed and whose exit code is ignored.
- `time.sleep` and all `print` output: each sleep is recorded as its duration in the trace. Nothing is printed, including the stderr printed at line 110.
- Unbounded retry: the script calls apply again for as long as errors are retryable. The model stops when the finite script runs out, in phase `Retrying`.
- Backoff.NextWait: the wait is an exact real and 1.1 is exactly 11/10. IEEE double rounding of `initial_wait * backoff_factor` is not modelled, and the proved bounds and monotonicity do not depend on it.
