# Pi camera capture system — a verified model of its core

This project models the capture orchestration core of a Raspberry-Pi style
time-lapse camera system, and proves properties of that model in Dafny.

- **Health monitor** (`Health`): the `HealthCheck` class keeps capture
  counters, a consecutive-failure run and a disconnect count. It gives a
  three-way camera status (`healthy`, `degraded`, `failed`) by first-match
  priority, and it has a polling gate for periodic checks. A ghost history of
  the recorded outcomes ties the counters together: in every state, total =
  successful + failed = the history's length, and the consecutive-failure
  count is the length of the history's trailing run of failures.
- **Orchestrator** (`Capture`): the `CaptureSystem` class. It covers the
  bounded retry of one capture (`capture_with_retry`), a single manual cycle,
  the continuous loop with its run flag, the graceful `stop`, and start-up
  validation. All effects on the outside world are entries of an event log:
  sleeps, camera invocations, per-attempt log lines, health checks,
  clean-ups, final reports. The clock moves only by the sleeps.
- **Artifact store** (`Files`): the `FileManager` class works over a
  `FileSystem` object whose `entries` map a path to its size and
  modification time. It covers file naming, verification (the file exists and
  is not empty), the age-based retention sweep, directory statistics and
  single-file deletion. A failing `os.remove` is an input: the set `locked`
  holds the paths whose removal raises.
- **Configuration** (`Config`): `get`/`set` on dot-separated key paths over
  a nested dictionary value, and the ordered checks of `_validate_config`.
- **Camera interface** (`Camera`): the `fswebcam` argv, how a process
  outcome maps to `(success, error)`, the `/dev/video0` … `/dev/video9`
  enumeration, the test-capture decision and the warm-up guard. How the child
  process ends, and what it writes, are inputs (`Attempt`).
- **Supporting pieces**: `Strings` models the Python string behaviour the
  core relies on (`strip`, `split('.')`, `endswith`, `str(int)`). `Common`
  holds `Option`, and `Completion`, which records whether a call returned or
  raised.

The world's answers are arguments of the operations: device probes (a
`DeviceTable`), timestamps, camera attempts, and the script of loop passes
(`Cycle`). `verify_file_exists` is the predicate `Files.Verified` (the path
exists and its size is strictly positive). `is_device_present` and
`check_device_permissions` are membership in the device table's sets.

Exceptions are modelled where the core's own code raises them: `time.sleep`
with a negative argument raises `ValueError`, so a negative retry delay
raises in the pause after a failed first attempt (capture.py:86) and a
negative interval raises in the loop's pause (capture.py:162). The capture
then records no outcome; the loop logs the exception and stops
(`Completion`, `Exit.Crashed`). The warm-up sleeps only for a positive
delay, and the sweep and the camera call catch their own exceptions.

Some of what the code does differs from what a reader might expect; the
model follows the code:

- The retention sweep has one `try` around its whole loop. The first removal
  that raises therefore ends the sweep, and the count so far is returned. A
  failed removal is not skipped with the sweep going on.
- A failed initial health check in `run_continuous` returns before the
  `try`/`finally`, so the run flag stays set and no stop report is
  emitted. The system does not go straight to stopped.
- The sweep and the statistics only look at `*.jpg` files directly inside
  the capture directory, not at every artifact the system writes.
- The pause between loop passes is a plain `time.sleep`, not an
  interruptible wait; see the stop signal under "Left out".

## Model

| member | source | states |
|---|---|---|
| Strings.StripShape | pi-camera-integration-system/src/app/camera_interface.py:134 | the result is the slice of the input between its leading and trailing whitespace, has no whitespace at either end, and is empty exactly when the input is all whitespace |
| Strings.SkipSpacesStops | pi-camera-integration-system/src/app/camera_interface.py:134 | the leading scan of `strip` passes over whitespace only and stops at the first non-whitespace character or at the end |
| Strings.SkipSpacesBackStops | pi-camera-integration-system/src/app/camera_interface.py:134 | the trailing scan of `strip` passes over whitespace only and stops just after the last non-whitespace character or at the scan's lower bound |
| Strings.Split | pi-camera-integration-system/src/app/config.py:82 | the pieces are never an empty list, contain no separator, and joined with the separator give back the key |
| Strings.SplitOfJoin | pi-camera-integration-system/src/app/config.py:82 | splitting a join of separator-free segments gives back exactly those segments |
| Strings.DigitsRoundTrip | pi-camera-integration-system/src/app/camera_interface.py:113 | the decimal digits written for a non-negative integer read back as that integer |
| Files.Basename | pi-camera-integration-system/src/utils/file_manager.py:180-190 | the base name contains no '/', is a suffix of the path, and is preceded by a '/' whenever it is shorter than the path |
| Files.BasenameOfJoin | pi-camera-integration-system/src/utils/file_manager.py:51 | the base name of a directory joined with a slash-free name is that name |
| Files.FileManager.GeneratedFilename | pi-camera-integration-system/src/utils/file_manager.py:39-52 | for a stamp and an extension without '/', `_get_filename` of the generated path gives back `stamp + "." + extension`, and a generated `.jpg` path is one the capture-directory glob picks up |
| Files.FileManager.GeneratedFilenameSlashed | pi-camera-integration-system/src/utils/file_manager.py:50-51 | for a stamp holding a '/', `_get_filename` of the generated path is only the part after the last '/', which differs from the generated name |
| Files.BasenameOfAppend | pi-camera-integration-system/src/utils/file_manager.py:180-190 | a path whose tail holds a '/' has the base name of that tail, whatever precedes it |
| Files.VerifiedAfterWrite | pi-camera-integration-system/src/utils/file_manager.py:54-74 | `verify_file_exists` accepts a path just written exactly when the write left at least one byte, and keeps its verdict on every other path |
| Files.SizeSumRemove | pi-camera-integration-system/src/utils/file_manager.py:123 | the total size of a set of files does not depend on the order the files are added up |
| Files.OldestNotAfterNewest | pi-camera-integration-system/src/utils/file_manager.py:129-130 | in a summary, oldest and newest are both present or both absent, and oldest <= newest |
| Files.SweepAborted | pi-camera-integration-system/src/utils/file_manager.py:101-104 | when a removal raises mid-sweep, the files removed so far are a proper subset of the expired ones, none of them is locked, the count equals them, and the failing file is still present |
| Files.SweepFinished | pi-camera-integration-system/src/utils/file_manager.py:89-97 | a sweep with no failing removal removes exactly the files older than the cutoff, and the count is how many there were |
| Files.FileManager.CleanupOldCaptures | pi-camera-integration-system/src/utils/file_manager.py:76-104 | max age <= 0 gives 0 and no change; otherwise only expired `*.jpg` captures (mtime strictly before now minus max age in days) are removed, nothing else changes, and the count equals the files removed; with no locked expired file all expired files go; when the sweep stops short, an expired locked file is still present |
| Files.FileManager.RemoveOlderThan | pi-camera-integration-system/src/utils/file_manager.py:89-104 | the same guarantees for the sweep loop over any set of globbed paths and cutoff |
| Files.FileManager.GetCaptureStats | pi-camera-integration-system/src/utils/file_manager.py:106-131 | count is the number of `*.jpg` captures and total is the sum of their sizes; oldest and newest are None exactly when there is no capture, and are otherwise the minimum and maximum modification time |
| Files.FileManager.Summarise | pi-camera-integration-system/src/utils/file_manager.py:113-131 | the fold over any set of present paths yields the summary of exactly those paths |
| Files.FileManager.DeleteCapture | pi-camera-integration-system/src/utils/file_manager.py:159-178 | true exactly when the path existed and its removal did not raise; then only that path is gone; otherwise the directory is unchanged |
| Camera.BuildCommand | pi-camera-integration-system/src/app/camera_interface.py:108-116 | the argv is `fswebcam`, the flags, `-r res -d dev --jpeg str(quality)`, the custom parameters and the output path, in that order, with length flags + custom + 8 |
| Camera.ExitError | pi-camera-integration-system/src/app/camera_interface.py:134 | the error of a nonzero exit is never empty |
| Camera.ExitErrorText | pi-camera-integration-system/src/app/camera_interface.py:134 | the error of a nonzero exit is the stripped stderr, or "Unknown error" when that is empty; it has no whitespace at either end |
| Camera.Classify | pi-camera-integration-system/src/app/camera_interface.py:130-151 | success exactly when the process exited with code 0, and then no error; else a non-empty error: the stderr rule on a nonzero exit, the timeout message, the not-installed message, or "Capture exception: " plus the exception text |
| Camera.ExceptionMessagesDistinct | pi-camera-integration-system/src/app/camera_interface.py:138-151 | the timeout, tool-not-found and other-exception paths give pairwise different error messages |
| Camera.CaptureImage | pi-camera-integration-system/src/app/camera_interface.py:97-151 | the report is the classification of how the process ended, and the only file change is the one the process made at the output path |
| Camera.DevicePathInjective | pi-camera-integration-system/src/app/camera_interface.py:82 | different indices give different `/dev/videoN` paths |
| Camera.PresentIndices | pi-camera-integration-system/src/app/camera_interface.py:80-86 | the probed indices are strictly ascending, each below the bound and present, and every present index below the bound is among them |
| Camera.PresentList | pi-camera-integration-system/src/app/camera_interface.py:80-86 | a list of `/dev/videoN` paths for the probed indices has no duplicates, holds every present device among the first n slots, and holds present devices only |
| Camera.ListAvailableDevices | pi-camera-integration-system/src/app/camera_interface.py:73-86 | the list is `/dev/videoN` for the present indices in ascending order: at most 10 entries, no duplicates, and exactly the present devices among video0 to video9 |
| Camera.WarmUpSleep | pi-camera-integration-system/src/app/camera_interface.py:88-95 | warm-up sleeps exactly when the delay is positive, and then for the delay |
| Camera.TestCapture | pi-camera-integration-system/src/app/camera_interface.py:153-173 | true exactly when the capture reported success, the test file is present and non-empty, and its removal succeeds; the file is then removed; a raising removal propagates out; otherwise false with the capture's file left as it is |
| Health.CountPositive | src/app/health_check.py:52-59 | some attempt has a given outcome exactly when the count of that outcome is positive |
| Health.CountSplit | src/app/health_check.py:50-59 | successes plus failures equal the number of attempts |
| Health.TrailingFailuresRun | src/app/health_check.py:54-58 | the consecutive-failure run consists of failures only, and a success precedes it unless it spans the whole history |
| Health.SuccessResetsRun | src/app/health_check.py:54 | a success wipes out the failure run before it |
| Health.FailedWindowReachesRun | src/app/health_check.py:58 | if the last n attempts all failed, the consecutive-failure count is at least n |
| Health.RecordOne | src/app/health_check.py:50-59 | one more outcome raises exactly one of the two counts by one, and the failure run becomes 0 on a success and one longer on a failure |
| Health.Assess | src/app/health_check.py:72-104 | absent device gives failed (device not found); present but unreadable gives failed (permissions); otherwise failed iff failures >= max, degraded iff 0 < failures < max, healthy iff failures = 0 < max, each with its details |
| Health.HealthCheck.constructor | src/app/health_check.py:33-41 | all counters zero, no timestamps, start time now, and the counter invariant holds on the empty history |
| Health.HealthCheck.RecordCaptureAttempt | src/app/health_check.py:43-59 | total +1 and exactly one of successful/failed +1; the run is reset by a success and extended by a failure; the matching last-time is set; the counter invariant is kept; disconnects and the last check are untouched |
| Health.HealthCheck.CheckCameraHealth | src/app/health_check.py:61-104 | the status and details are the first-match decision; the last check time is set; disconnects go up by one exactly when the device is absent; the alert fires exactly when absent and alerting is on; no capture counter changes |
| Health.HealthCheck.ShouldRunHealthCheck | src/app/health_check.py:170-181 | due when no check has run; otherwise due iff the time since the last check is at least the check interval |
| Health.HealthCheck.ResetMetrics | src/app/health_check.py:183-193 | every counter is 0, every timestamp is None, the start time is now, and a health check is then due at any time |
| Health.HealthCheck.IsSystemHealthy | src/app/health_check.py:197-205 | healthy iff the device is present and readable and failures are below the maximum (healthy or degraded) |
| Health.GateAfterCheck | src/app/health_check.py:177-181 | right after a check at time t, the next one is due exactly from t plus the interval on |
| Config.Lookup | pi-camera-integration-system/src/app/config.py:82-91 | the empty path finds the value itself; a segment missing from a dictionary, or a non-dictionary on the path, gives nothing |
| Config.LookupAppend | pi-camera-integration-system/src/app/config.py:85-89 | walking a concatenated path is walking its two halves in turn |
| Config.Get | pi-camera-integration-system/src/app/config.py:71-91 | the found value when the dotted path walks through, and the default otherwise |
| Config.Config.GetValueSection | pi-camera-integration-system/src/app/config.py:71-91 | `get` of a key without a dot is the top-level entry of that name, or the default when there is none |
| Config.SetIn | pi-camera-integration-system/src/app/config.py:101-109 | succeeds exactly when no proper prefix of the path meets a non-dictionary; the top-level keys become the old ones plus the first segment |
| Config.NotWritableIffBlocked | pi-camera-integration-system/src/app/config.py:104-109 | `set` fails exactly when walking some proper prefix of the path reaches a value that is not a dictionary |
| Config.SetInExtension | pi-camera-integration-system/src/app/config.py:101-109 | after a `set`, any path extending the written one reads inside the written value; missing intermediates have become dictionaries |
| Config.SetInThenLookup | pi-camera-integration-system/src/app/config.py:101-109 | after a `set`, the written path reads back the written value |
| Config.SetInFrame | pi-camera-integration-system/src/app/config.py:101-109 | after a `set`, a path that diverges from the written one reads as before |
| Config.Subscript | pi-camera-integration-system/src/app/config.py:65 | subscripting gives the field when the section is a dictionary holding the key, KeyError when the key is missing, TypeError when the section is not a dictionary |
| Config.BelowOne | pi-camera-integration-system/src/app/config.py:68 | `x < 1` is defined for integers and booleans (a boolean counts as 0 or 1) and raises TypeError for anything else |
| Config.Config.ValidateConfig | pi-camera-integration-system/src/app/config.py:51-69 | no error iff all five sections are present, the device is truthy and the retry count is at least 1; the first missing section in list order is the one reported; no value check runs before all sections are found; a falsy device is reported as such |
| Config.Config.Set | pi-camera-integration-system/src/app/config.py:93-109 | the TypeError is raised exactly when the path is not writable, and then nothing changes; otherwise the dictionary becomes the result of the set |
| Config.GetAfterSet | pi-camera-integration-system/src/app/config.py:82-109 | round trip: after `set(k, v)` on a writable path, `get(k)` returns v |
| Config.GetAfterSetElsewhere | pi-camera-integration-system/src/app/config.py:82-109 | after `set(k, v)`, `get` of a key that parts ways with k returns what it returned before |
| Capture.JudgeVerdict | pi-camera-integration-system/src/app/capture.py:67-79 | an attempt passes exactly when the tool reported success and the file verifies; a reported success whose file does not verify fails with "File verification failed"; any other failure carries the tool's error |
| Capture.AttemptsLogInvocations | pi-camera-integration-system/src/app/capture.py:66-67 | n attempts invoke the camera exactly n times |
| Capture.AttemptsLogQuiet | pi-camera-integration-system/src/app/capture.py:66-86 | the attempts of a call log no clean-up and no stop |
| Capture.AttemptsLogResults | pi-camera-integration-system/src/app/capture.py:69-82 | over n attempts of which all but the last failed: one success line exactly when the last passed, and a failure line for every other attempt |
| Capture.AttemptsLogPauses | pi-camera-integration-system/src/app/capture.py:84-86 | over the same run: a pause after every failure except one at the last allowed attempt, so n-1 pauses when the last passed or was the last allowed one, and n otherwise |
| Capture.AttemptsLogOnePath | pi-camera-integration-system/src/app/capture.py:64-67 | every camera invocation of one call uses the same output path |
| Capture.FailedBeforeAt | pi-camera-integration-system/src/app/capture.py:66-90 | when none of the first n attempts passed, each single one of them failed |
| Capture.RetryStep | pi-camera-integration-system/src/app/capture.py:67-86 | the attempt after n others, run at the time their pauses add up to, gets the verdict the call's attempt script gives it, and the files and events reach their state after n+1 attempts |
| Capture.RetryAdvance | pi-camera-integration-system/src/app/capture.py:67-86 | the attempt after n failures either ends the call with success at attempt n+1, or extends the failure run, pausing only when another attempt is allowed |
| Capture.RetryFailed | pi-camera-integration-system/src/app/capture.py:81-86 | a failed attempt extends the failure run and adds a pause only when it is not the last allowed attempt |
| Capture.RetryPassed | pi-camera-integration-system/src/app/capture.py:69-77 | a passing attempt after only failures ends the call with success at that attempt |
| Capture.RetryExhausted | pi-camera-integration-system/src/app/capture.py:88-90 | when every allowed attempt failed, the call ends without success having used all of them |
| Capture.RetryRaises | pi-camera-integration-system/src/app/capture.py:81-86 | when the pause after a failed first attempt raises, the call has logged exactly that attempt's two lines, its files are those after one attempt, and no time has passed |
| Capture.RetryOutcomeCounts | pi-camera-integration-system/src/app/capture.py:57-90 | one call made `used` invocations on one path, with used-1 pauses (none after the last attempt), one success line iff it succeeded, used-1 or used failure lines, elapsed time of used-1 delays, and a verified file on success |
| Capture.CleanupsDueClosedForm | pi-camera-integration-system/src/app/capture.py:157-158 | n more captures from a total of t trigger (t+n)/10 - t/10 clean-ups, one for every multiple of ten passed |
| Capture.CleanupsStep | pi-camera-integration-system/src/app/capture.py:156-158 | a pass that records at most one outcome, with a clean-up exactly when it recorded one that brought the total to a multiple of ten, keeps the clean-up count in step with `CleanupsDue` |
| Capture.StopAppend | pi-camera-integration-system/src/app/capture.py:175-183 | a log followed by the stop's events has one more stop line, no more clean-ups, and ends with the stop's three reports |
| Capture.PassTally | pi-camera-integration-system/src/app/capture.py:153-162 | the events of a pass are those of its cycle, plus the stop reports exactly when the pass is the last one |
| Capture.StopTally | pi-camera-integration-system/src/app/capture.py:175-183 | the events of a stop hold exactly one stop line and no clean-up |
| Capture.CaptureSystem.constructor | pi-camera-integration-system/src/app/capture.py:34-38 | interval, retry count and retry delay are the configured ones, whatever their sign, and the system starts not running |
| Capture.CaptureSystem.Sleep | pi-camera-integration-system/src/app/capture.py:86 | `time.sleep`: a non-negative pause is logged and advances the clock by its length; a negative one raises, with nothing logged and the clock unchanged |
| Capture.CaptureSystem.TryOnce | pi-camera-integration-system/src/app/capture.py:67-86 | one attempt: the camera's effect on the output path, the verdict and its two lines; after a failure with attempts left, the pause of the retry delay, which raises exactly when the delay is negative, and then neither logs nor advances the clock |
| Capture.CaptureSystem.NextAttempt | pi-camera-integration-system/src/app/capture.py:66-86 | from the retry invariant after n failures: success at attempt n+1, a raise in the pause after the first attempt (only with a negative delay and more than one attempt allowed), or the invariant after n+1 failures |
| Capture.CaptureSystem.Attempts | pi-camera-integration-system/src/app/capture.py:64-87 | the attempt loop either returns the retry outcome of its inputs (stopped at the first passing attempt, or all allowed attempts failed) or raises in the pause after a failed first attempt, which a negative delay causes |
| Capture.CaptureSystem.AttemptLoop | pi-camera-integration-system/src/app/capture.py:66-87 | the same ending for the loop, given the logged file name |
| Capture.CaptureSystem.CaptureWithRetry | pi-camera-integration-system/src/app/capture.py:57-90 | one generated path; the retry outcome, or the raise in the first pause; exactly one recorded outcome, equal to the result, when the call returns and none when it raises; a raise only for a negative delay; no other health change, and no clean-up or stop among its events |
| Capture.CaptureSystem.Check | pi-camera-integration-system/src/app/capture.py:129-130 | the status is the health decision for the device table at that moment; the alert and the status line are logged; no capture counter changes |
| Capture.CaptureSystem.WarmUp | pi-camera-integration-system/src/app/capture.py:137 | the warm-up sleep is logged and the clock advances by it, when the delay is positive |
| Capture.CaptureSystem.Stop | pi-camera-integration-system/src/app/capture.py:170-183 | idempotent: a stopped system stays unchanged; a running one stops and logs the stop line, the metrics and the statistics of the captures on disk |
| Capture.CaptureSystem.CheckIfDue | pi-camera-integration-system/src/app/capture.py:144-151 | a check runs exactly when the polling gate is open, and then reports the health decision of that moment; the last-check time becomes the current time exactly when it ran and stays otherwise; the history and the clock are unchanged |
| Capture.CaptureSystem.CaptureCounted | pi-camera-integration-system/src/app/capture.py:154 | the capture of pass i is the call of `capture_with_retry` over that pass's attempts, on the path its stamp names, from the files and clock as they are; its record holds that retry, the attempts used, the files left, the lines logged and the time its pauses took; it ends as the retry does (the retry outcome, or the raise for a negative delay); the history grows by exactly the returned outcome, and by nothing after a raise; the last-check time is untouched |
| Capture.CaptureSystem.Cleanup | pi-camera-integration-system/src/app/capture.py:158 | the retention sweep at the current clock: only expired, removable captures go, nothing else changes, the count equals the files removed, and every expired capture goes unless a removal fails; the count is logged |
| Capture.CaptureSystem.CleanIfDue | pi-camera-integration-system/src/app/capture.py:157-158 | when due, the retention sweep with its guarantees and exactly one clean-up line; otherwise the files unchanged and nothing logged |
| Capture.CaptureSystem.CaptureAndClean | pi-camera-integration-system/src/app/capture.py:153-158 | the capture is the retry of `CaptureCounted`, recorded in the pass's log; the lines are the capture's then the clean-up's; after a capture that returned, exactly one clean-up when the capture total is a multiple of 10 and none otherwise, none after a raise; with no clean-up the files are those the capture left, and a clean-up sweeps them |
| Capture.CaptureSystem.RunCycle | pi-camera-integration-system/src/app/capture.py:143-158 | the pass starts at the current clock; its check runs exactly when due and reports the decision of that moment; a failed check breaks with nothing captured; otherwise one capture, recorded when it returned, and the clean-up rule; the last-check time follows the check; a capture is the retry over this pass's attempts from the files as they are, and a skipped capture leaves the files alone |
| Capture.CaptureSystem.EndPass | pi-camera-integration-system/src/app/capture.py:160-162 | at the end of the last pass the stop reports and no pause, with the clock unchanged; otherwise the pause of the interval, logged and added to the clock; a negative interval raises with nothing logged and the clock unchanged |
| Capture.CaptureSystem.Pass | pi-camera-integration-system/src/app/capture.py:142-162 | one loop pass: the check runs exactly when due and gives the decision for the failure run so far; the capture is skipped exactly when that check failed; the loop goes on only after a recorded capture and the full pause, so the next pass starts at start plus time taken plus interval; it stops after the last pass; it raises only in the capture or in a negative pause; its capture is the retry over this pass's attempts from the files as they are |
| Capture.CaptureSystem.LoopPass | pi-camera-integration-system/src/app/capture.py:142-162 | one pass keeps the loop invariant: the passes so far form a chronicle, the history is the outcomes of those passes, the last-check time is that of the last check run, one clean-up per multiple of ten, and a stop only after the last pass; every pass's capture is the retry over its own attempts |
| Capture.CaptureSystem.Finish | pi-camera-integration-system/src/app/capture.py:164-168 | an exception is logged once, then the `finally` leaves the system stopped with exactly one stop, whose three reports end the log |
| Capture.CaptureSystem.Begin | pi-camera-integration-system/src/app/capture.py:141-142 | the loop invariant holds before the first pass; with no pass to run, the stop has already happened and its reports are logged |
| Capture.CaptureSystem.CaptureLoop | pi-camera-integration-system/src/app/capture.py:141-168 | the passes form a chronicle from the loop's start: each begins when the one before ended, checks exactly when the gate is open and gives the decision for the failure run so far; every pass but the last captured after a check that did not fail; the loop ends after all passes (signal), at the first failed check, or at a raise, which needs a negative retry delay or interval and is logged; one outcome per capture that returned, one clean-up per multiple of ten, exactly one stop, whose reports end the log; each pass's capture is the call of `capture_with_retry` over that pass's attempts, on the path its stamp names, begun at the pass's start, and the pass took the time its pauses took |
| Capture.CaptureSystem.RunContinuous | pi-camera-integration-system/src/app/capture.py:120-168 | a failed initial check returns at once, with the run flag left on, no capture, no warm-up and no stop; otherwise warm-up, then the loop's guarantees (each pass's capture being the retry over its own attempts) with the initial check's time as the last check and the warmed-up clock as the first pass's start |
| Capture.CaptureSystem.WarmCapture | pi-camera-integration-system/src/app/capture.py:109-118 | warm-up, one retried capture from the warmed-up clock, then the metrics line when the capture returned; a raise propagates without it |
| Capture.CaptureSystem.RunSingleCapture | pi-camera-integration-system/src/app/capture.py:92-118 | a failed check answers false with nothing captured and no warm-up; otherwise warm-up, one retried capture with its retry outcome or its raise, the outcome recorded when it returned, and the metrics only then |
| Capture.CaptureSystem.ChronicleStep | pi-camera-integration-system/src/app/capture.py:142-162 | a pass that starts when the previous one ended, checks exactly when due with the decision for the failure run so far, and skips its capture exactly when that check failed, extends the chronicle; the outcomes, the last check and the next start move on accordingly |
| Capture.CaptureSystem.ChronicleAt | pi-camera-integration-system/src/app/capture.py:142-162 | any pass of a chronicle on its own: its start, its check when due with the decision for the outcomes before it, its skipped capture exactly on a failed check, and a recorded capture after a check that did not fail for every pass but the last |
| Capture.CaptureSystem.LoopExit | pi-camera-integration-system/src/app/capture.py:141-168 | in a loop that left, every pass but the last captured after a check that did not fail, and a raise needs a negative retry delay or interval |
| Capture.CaptureSystem.LoopStep | pi-camera-integration-system/src/app/capture.py:142-162 | a pass with the effects `Pass` promises, from a loop that goes on, takes the loop invariant to the next pass |
| Capture.CaptureSystem.AllShootStep | pi-camera-integration-system/src/app/capture.py:142-158 | a pass whose capture is the retry over its own attempts extends a trace of passes that all were |
| Capture.CaptureSystem.LoopStart | pi-camera-integration-system/src/app/capture.py:141-142 | the loop invariant holds for no pass at all, going on or already stopped by the signal |
| Capture.CaptureSystem.ValidateSystem | pi-camera-integration-system/src/app/capture.py:185-218 | an absent or unreadable device answers false with no listing and no capture; otherwise the listing (present devices in index order), then the test capture's verdict, which alone decides the answer |

## Left out

- The signal handlers and the asynchronous stop (capture.py:41-55) are OS signals and concurrency. `stop` is a sequential call. In the continuous loop the signal arrives at the end of the last scripted pass, before its pause. With no scripted pass it arrives during the warm-up.
- Camera.BuildCommand: the fswebcam flags and custom parameters are strings in the model. A non-string entry in the configuration would make the `' '.join(cmd)` at camera_interface.py:118, outside the `try`, raise `TypeError`; that failure is not modelled.
- Capture.CaptureSystem.CaptureLoop: the trace of a pass records its start, its check, its capture (the retry, the attempts used, the files it left, its lines) and the time it took. It does not chain the files from pass to pass: that a retry starts from the files the previous pass and its clean-up left is stated by `RunCycle`, `Pass` and `CaptureAndClean` for one pass at a time, not by the loop's contract.
- Files.FileManager.GeneratedFilename: a `filename_pattern` whose directives (`%D`, `%x`) or literal text put a '/' in the stamp is outside the round trip; `GeneratedFilenameSlashed` states what `_get_filename` then returns (only the part after the last '/'). Whether the nested directory exists is not modelled.
- Capture.CaptureSystem.RunSingleCapture: an exception from the capture leaves the call as `Threw`; the caller's handling of it (main.py) is not part of the model.
- `time.sleep` and `datetime.now` are not real. Sleeps are events that advance an integer clock in seconds. The health monitor's timestamps are the `now` argument, or the orchestrator's clock.
- `strftime` is not modelled: the timestamp that names a file is a `stamp` argument, and `filename_pattern` is not modelled with it. The statistics keep the oldest and newest times as integers.
- Floating point is not modelled: the success rate, the size in megabytes (whole bytes are kept) and the uptime. `get_success_rate`, `get_uptime`, `get_metrics` and `print_metrics` are left out for this reason. Printing the metrics is the `MetricsPrinted` event.
- Only some logging appears. The log lines the core's guarantees speak of are events: attempt results, health checks, clean-up counts, the stop reports and the device listing. Other info, debug and warning lines (for example the degraded warning) are not.
- `subprocess.run`, `os.path.exists`, `os.access`, `os.remove` and `Path.glob` are foreign I/O. They are inputs: an `Attempt` per camera run, a `DeviceTable`, the `locked` set and the filesystem map.
- Glob order is not modelled. The sweep visits the captures in an unspecified order (a set), so its contract does not say which expired files go before a failing removal ends the sweep.
- Config.Config.Set works on values. The nested dictionaries are rebuilt along the path, so aliasing between shared nested dictionaries is not captured. A failing `set` changes nothing, because a missing segment is only ever created after the last existing one.
- YAML values are modelled without floats and with string keys only. YAML loading and saving, `get_all` and `print_summary` are left out, because parsing and printing are foreign code.
- `archive_captures` (a zip archive), `get_device_info` (v4l2-ctl), `reset_device` and `_ensure_directories` are left out. `validate_system`'s directory step is therefore not modelled.
- The module-level `_get_filename` at the end of capture.py is a dead duplicate and is left out.
- main.py, the logger module and the package `__init__` are wiring only and are left out.
- Camera.TestCapture: the failure message that is logged is not modelled, only the verdict.
