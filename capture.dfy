// The capture orchestrator: the bounded retry of one capture, a single manual
// cycle, the continuous loop with its run flag, the graceful stop and the
// start-up validation. Everything the process does to the outside world is an
// entry of the event log `events`: sleeps, camera invocations, the log lines
// of each attempt, health checks, clean-ups and the final reports. The clock
// `clock` advances only by the sleeps; the world's answers (device probes,
// timestamps, camera attempts) come in as arguments.

module Capture {
  import opened Common
  import Files
  import Camera
  import Health

  datatype Event =
    | SystemStarted
    | DisconnectAlerted
    | HealthChecked(status: Health.Status)
    | Slept(seconds: int)
    | Invoked(path: string)
    | CaptureSucceeded(filename: string, attempt: nat)
    | CaptureFailed(error: string, attempt: nat, maxRetries: int)
    | CleanedUp(deleted: nat)
    | SystemStopped
    | MetricsPrinted
    | StatsReported(stats: Files.CaptureStats)
    | DevicesListed(devices: seq<string>)
    | MainLoopFailed

  datatype Kind = KSlept | KInvoked | KSucceeded | KFailed | KCleanedUp | KStopped

  predicate Is(e: Event, k: Kind)
  {
    match k
    case KSlept => e.Slept?
    case KInvoked => e.Invoked?
    case KSucceeded => e.CaptureSucceeded?
    case KFailed => e.CaptureFailed?
    case KCleanedUp => e.CleanedUp?
    case KStopped => e.SystemStopped?
  }

  /** How many events of kind `k` the log `es` holds. */
  function Tally(es: seq<Event>, k: Kind): (n: nat)
    ensures n <= |es|
  {
    if es == [] then 0 else Tally(es[..|es| - 1], k) + if Is(es[|es| - 1], k) then 1 else 0
  }

  lemma {:induction false} TallyAppend(a: seq<Event>, b: seq<Event>, k: Kind)
    ensures Tally(a + b, k) == Tally(a, k) + Tally(b, k)
    decreases |b|
  {
    if b == [] {
      assert a + b == a;
    } else {
      assert (a + b)[..|a + b| - 1] == a + b[..|b| - 1];
      TallyAppend(a, b[..|b| - 1], k);
    }
  }

  lemma AppendAssoc(a: seq<Event>, b: seq<Event>, c: seq<Event>)
    ensures a + b + c == a + (b + c)
  {
  }

  /** At most `retry_attempts` attempts; none when it is below 1. */
  function AttemptLimit(maxRetries: int): nat
  {
    if maxRetries > 0 then maxRetries else 0
  }

  const VerificationFailed := "File verification failed"

  /** `k` pauses of `d` seconds each, added up (kept linear for the solver). */
  function Offset(k: nat, d: int): int
  {
    if k == 0 then 0 else Offset(k - 1, d) + d
  }

  /** Everything one call of `capture_with_retry` depends on. Attempt `k`
      (counting from 0) happens `k` retry delays after the call starts. */
  datatype Retry = Retry(
    camera: Camera.Settings,
    path: string,
    start: map<string, Files.FileInfo>,
    t0: int,
    delay: int,
    maxRetries: int,
    attempts: seq<Camera.Attempt>)

  /** The files once the first `n` attempts have run. */
  function StoreAfter(r: Retry, n: nat): map<string, Files.FileInfo>
    requires n <= |r.attempts|
  {
    if n == 0 then r.start
    else Camera.AfterAttempt(StoreAfter(r, n - 1), r.path, r.attempts[n - 1], r.t0 + Offset(n - 1, r.delay))
  }

  /** What the loop makes of one attempt: whether it passed, and the error it logs if not. */
  datatype Step = Step(passed: bool, error: string)

  /**
   * The verdict on one attempt whose process ended as `a` says and left the
   * files `after`: it passes when the tool reported success and the output
   * file is there and not empty; a reported success whose file is missing or
   * empty is a failure with its own message.
   */
  function Judge(cam: Camera.Settings, a: Camera.Attempt, after: map<string, Files.FileInfo>, path: string): Step
  {
    var report := Camera.Classify(cam, a.outcome);
    if report.success && Files.Verified(after, path) then Step(true, "")
    else if report.success then Step(false, VerificationFailed)
    else Step(false, report.error.value)
  }

  /** An attempt passes exactly when the tool reported success and the file
      verifies; every failure carries a non-empty error, the verification
      message when the tool itself reported success. */
  lemma JudgeVerdict(cam: Camera.Settings, a: Camera.Attempt, after: map<string, Files.FileInfo>, path: string)
    ensures var step, report := Judge(cam, a, after, path), Camera.Classify(cam, a.outcome);
            && (step.passed <==> report.success && Files.Verified(after, path))
            && (!step.passed && report.success ==> step.error == VerificationFailed)
            && (!step.passed && !report.success ==> Some(step.error) == report.error)
            && (!step.passed ==> step.error != [])
  {
  }

  /** What the loop makes of attempt `k` of a call. */
  function StepOf(r: Retry, k: nat): Step
    requires k < |r.attempts|
  {
    Judge(r.camera, r.attempts[k], StoreAfter(r, k + 1), r.path)
  }

  /** Attempt `k` counts as a success: the tool reported success and the file checks out. */
  predicate Passed(r: Retry, k: nat)
    requires k < |r.attempts|
  {
    StepOf(r, k).passed
  }

  /** The verdicts on all the attempts the call `r` could make. */
  function Verdicts(r: Retry): (steps: seq<Step>)
    ensures |steps| == |r.attempts|
    ensures forall k :: 0 <= k < |steps| ==> steps[k] == StepOf(r, k)
  {
    seq(|r.attempts|, k requires 0 <= k < |r.attempts| => StepOf(r, k))
  }

  /** The log of one call, attempt by attempt. */
  datatype Log = Log(path: string, name: string, maxRetries: int, delay: int)

  /** The two events every attempt numbered `k + 1` has: the invocation and its result line. */
  function AttemptLines(g: Log, k: nat, step: Step): seq<Event>
  {
    [Invoked(g.path), if step.passed then CaptureSucceeded(g.name, k + 1) else CaptureFailed(step.error, k + 1, g.maxRetries)]
  }

  /** The events of the attempt numbered `k + 1`: its two lines, and the pause
      that follows a failure other than the last allowed one. */
  function AttemptEvents(g: Log, k: nat, step: Step): seq<Event>
  {
    AttemptLines(g, k, step) + if !step.passed && k + 1 < g.maxRetries then [Slept(g.delay)] else []
  }

  /** The events of the first `n` attempts, whose verdicts are `steps`, logged as `g` says. */
  function AttemptsLog(g: Log, steps: seq<Step>, n: nat): seq<Event>
    requires n <= |steps|
  {
    if n == 0 then [] else AttemptsLog(g, steps, n - 1) + AttemptEvents(g, n - 1, steps[n - 1])
  }

  lemma TallySingle(e: Event, k: Kind)
    ensures Tally([e], k) == if Is(e, k) then 1 else 0
  {
    assert [e][..0] == [];
  }

  /** The line a clean-up logs counts as one clean-up and no stop. */
  lemma CleanupLine(deleted: nat)
    ensures Tally([CleanedUp(deleted)], KStopped) == 0 && Tally([CleanedUp(deleted)], KCleanedUp) == 1
  {
    TallySingle(CleanedUp(deleted), KStopped);
    TallySingle(CleanedUp(deleted), KCleanedUp);
  }

  /** How many events of a kind one attempt contributes. */
  function AttemptTally(g: Log, k: nat, step: Step, kind: Kind): nat
  {
    match kind
    case KInvoked => 1
    case KSucceeded => if step.passed then 1 else 0
    case KFailed => if step.passed then 0 else 1
    case KSlept => if !step.passed && k + 1 < g.maxRetries then 1 else 0
    case _ => 0
  }

  lemma AttemptEventsTally(g: Log, k: nat, step: Step, kind: Kind)
    ensures Tally(AttemptEvents(g, k, step), kind) == AttemptTally(g, k, step, kind)
  {
    var a := AttemptEvents(g, k, step);
    var head := [a[0], a[1]];
    assert head == [a[0]] + [a[1]];
    TallyAppend([a[0]], [a[1]], kind);
    TallySingle(a[0], kind);
    TallySingle(a[1], kind);
    if |a| == 3 {
      assert a == head + [a[2]];
      TallyAppend(head, [a[2]], kind);
      TallySingle(a[2], kind);
    } else {
      assert a == head;
    }
  }

  lemma AttemptsLogTally(g: Log, steps: seq<Step>, n: nat, kind: Kind)
    requires 0 < n <= |steps|
    ensures Tally(AttemptsLog(g, steps, n), kind)
            == Tally(AttemptsLog(g, steps, n - 1), kind) + AttemptTally(g, n - 1, steps[n - 1], kind)
  {
    TallyAppend(AttemptsLog(g, steps, n - 1), AttemptEvents(g, n - 1, steps[n - 1]), kind);
    AttemptEventsTally(g, n - 1, steps[n - 1], kind);
  }

  /** `n` attempts invoke the camera `n` times. */
  lemma {:induction false} AttemptsLogInvocations(g: Log, steps: seq<Step>, n: nat)
    requires n <= |steps|
    ensures Tally(AttemptsLog(g, steps, n), KInvoked) == n
    decreases n
  {
    if n > 0 {
      AttemptsLogInvocations(g, steps, n - 1);
      AttemptsLogTally(g, steps, n, KInvoked);
      assert AttemptTally(g, n - 1, steps[n - 1], KInvoked) == 1;
    }
  }

  /** Attempts neither clean up nor stop. */
  lemma {:induction false} AttemptsLogQuiet(g: Log, steps: seq<Step>, n: nat)
    requires n <= |steps|
    ensures Tally(AttemptsLog(g, steps, n), KCleanedUp) == 0 && Tally(AttemptsLog(g, steps, n), KStopped) == 0
    decreases n
  {
    if n > 0 {
      AttemptsLogQuiet(g, steps, n - 1);
      AttemptsLogTally(g, steps, n, KCleanedUp);
      AttemptsLogTally(g, steps, n, KStopped);
      assert AttemptTally(g, n - 1, steps[n - 1], KCleanedUp) == 0;
      assert AttemptTally(g, n - 1, steps[n - 1], KStopped) == 0;
    }
  }

  /** In a run of `n` attempts of which all but possibly the last failed, one
      success line is logged exactly when the last passed, and a failure line
      for every other attempt. */
  lemma {:induction false} AttemptsLogResults(g: Log, steps: seq<Step>, n: nat)
    requires n <= |steps| && forall j :: 0 <= j < n - 1 ==> !steps[j].passed
    ensures Tally(AttemptsLog(g, steps, n), KSucceeded) == if n > 0 && steps[n - 1].passed then 1 else 0
    ensures Tally(AttemptsLog(g, steps, n), KFailed) == if n > 0 && steps[n - 1].passed then n - 1 else n
    decreases n
  {
    if n > 0 {
      AttemptsLogResults(g, steps, n - 1);
      AttemptsLogTally(g, steps, n, KSucceeded);
      AttemptsLogTally(g, steps, n, KFailed);
    }
  }

  /** In the same run, a pause follows every failure except one at the last
      allowed attempt: the pauses number one less than the attempts when the
      last passed or was the last allowed one, and as many otherwise. */
  lemma {:induction false} AttemptsLogPauses(g: Log, steps: seq<Step>, n: nat)
    requires n <= |steps| && n <= AttemptLimit(g.maxRetries)
    requires forall j :: 0 <= j < n - 1 ==> !steps[j].passed
    ensures Tally(AttemptsLog(g, steps, n), KSlept)
            == if n == 0 then 0 else if steps[n - 1].passed || n == g.maxRetries then n - 1 else n
    decreases n
  {
    if n > 0 {
      AttemptsLogPauses(g, steps, n - 1);
      AttemptsLogTally(g, steps, n, KSlept);
    }
  }

  /** Every invocation of one call runs the camera on the same output path. */
  lemma {:induction false} AttemptsLogOnePath(g: Log, steps: seq<Step>, n: nat)
    requires n <= |steps|
    ensures forall e :: e in AttemptsLog(g, steps, n) && e.Invoked? ==> e.path == g.path
    decreases n
  {
    if n > 0 {
      AttemptsLogOnePath(g, steps, n - 1);
      AttemptEventsOnePath(g, n - 1, steps[n - 1]);
      var before, last := AttemptsLog(g, steps, n - 1), AttemptEvents(g, n - 1, steps[n - 1]);
      assert AttemptsLog(g, steps, n) == before + last;
      forall e: Event | e in before + last && e.Invoked?
        ensures e.path == g.path
      {
        if e !in before {
          assert e in last;
        }
      }
    }
  }

  /** The invocation of one attempt uses the call's output path. */
  lemma AttemptEventsOnePath(g: Log, k: nat, step: Step)
    ensures forall e :: e in AttemptEvents(g, k, step) && e.Invoked? ==> e.path == g.path
  {
  }

  /** The pauses taken once `n` attempts have failed: one after each, except after the last allowed one. */
  function Pauses(n: nat, maxRetries: int): nat
  {
    if n < maxRetries || n == 0 then n else n - 1
  }

  /** The log `g` is the log of the call `r`. */
  predicate Fits(r: Retry, g: Log)
  {
    g.path == r.path && g.maxRetries == r.maxRetries && g.delay == r.delay
  }

  /** None of the first `n` attempts passed. */
  predicate FailedBefore(r: Retry, n: nat)
    requires n <= |r.attempts|
    decreases n
  {
    n == 0 || (FailedBefore(r, n - 1) && !Passed(r, n - 1))
  }

  /** Each of the first `n` attempts failed. */
  lemma {:induction false} FailedBeforeAt(r: Retry, n: nat, j: nat)
    requires n <= |r.attempts| && FailedBefore(r, n) && j < n
    ensures !Passed(r, j)
    decreases n
  {
    if j < n - 1 {
      FailedBeforeAt(r, n - 1, j);
    }
  }

  /** The files and the events once the first `n` attempts have run. */
  ghost predicate Reached(r: Retry, g: Log, n: nat, entries: map<string, Files.FileInfo>, log: seq<Event>)
    requires n <= |r.attempts|
  {
    entries == StoreAfter(r, n) && log == AttemptsLog(g, Verdicts(r), n)
  }

  /** The state of `capture_with_retry` after `n` attempts, all of which failed:
      the files, the events logged and the seconds slept since the call began. */
  ghost predicate Retried(r: Retry, g: Log, n: nat, entries: map<string, Files.FileInfo>, log: seq<Event>, elapsed: int)
  {
    && Fits(r, g)
    && n <= |r.attempts| && n <= AttemptLimit(r.maxRetries)
    && FailedBefore(r, n)
    && Reached(r, g, n, entries, log)
    && elapsed == Offset(Pauses(n, r.maxRetries), r.delay)
  }

  /** The state of `capture_with_retry` when it returns after `used` attempts:
      either the last of them passed and all before it failed, or all the
      allowed attempts failed. */
  ghost predicate RetryOutcome(r: Retry, g: Log, used: nat, success: bool,
                               entries: map<string, Files.FileInfo>, log: seq<Event>, elapsed: int)
  {
    && Fits(r, g)
    && used <= |r.attempts| && used <= AttemptLimit(r.maxRetries)
    && (success ==> used >= 1 && Passed(r, used - 1))
    && (!success ==> used == AttemptLimit(r.maxRetries))
    && FailedBefore(r, if success then used - 1 else used)
    && Reached(r, g, used, entries, log)
    && elapsed == Offset(if used == 0 then 0 else used - 1, r.delay)
  }

  /** The state of `capture_with_retry` when the pause after its first attempt
      raised: the retry delay is negative, more than one attempt is allowed, and
      the first attempt failed; its two lines are logged and its outcome is
      never recorded. */
  ghost predicate RetryRaised(r: Retry, g: Log, entries: map<string, Files.FileInfo>, log: seq<Event>)
  {
    && Fits(r, g)
    && r.delay < 0 && 1 < r.maxRetries && 1 <= |r.attempts|
    && !Passed(r, 0)
    && entries == StoreAfter(r, 1)
    && log == AttemptLines(g, 0, StepOf(r, 0))
  }

  /** How one call of `capture_with_retry` ended: it returned after `used`
      attempts, or the pause after its one failed attempt raised, no time having passed. */
  ghost predicate RetryEnded(r: Retry, g: Log, used: nat, result: Completion<bool>,
                             entries: map<string, Files.FileInfo>, log: seq<Event>, elapsed: int)
  {
    match result
    case Returned(success) => RetryOutcome(r, g, used, success, entries, log, elapsed)
    case Threw => used == 1 && elapsed == 0 && RetryRaised(r, g, entries, log)
  }

  lemma RetryStart(r: Retry, g: Log)
    requires Fits(r, g)
    ensures Retried(r, g, 0, r.start, [], 0)
  {
  }

  /** The files after attempt `n`, made at the time of attempt `n`. */
  lemma StoreStep(r: Retry, n: nat, entries: map<string, Files.FileInfo>, elapsed: int,
                  a: Camera.Attempt, now: int, after: map<string, Files.FileInfo>)
    requires n < |r.attempts| && entries == StoreAfter(r, n) && elapsed == Offset(n, r.delay)
    requires a == r.attempts[n] && now == r.t0 + elapsed
    requires after == Camera.AfterAttempt(entries, r.path, a, now)
    ensures after == StoreAfter(r, n + 1)
  {
  }

  /** The log after attempt `n`. */
  lemma LogStep(r: Retry, g: Log, n: nat, log: seq<Event>)
    requires n < |r.attempts| && log == AttemptsLog(g, Verdicts(r), n)
    ensures AttemptsLog(g, Verdicts(r), n + 1) == log + AttemptEvents(g, n, StepOf(r, n))
  {
  }

  /** A failed attempt `n` extends the run of failures. */
  lemma RetryFailed(r: Retry, g: Log, n: nat, entries: map<string, Files.FileInfo>, log: seq<Event>, elapsed: int,
                    after: map<string, Files.FileInfo>, log': seq<Event>, elapsed': int)
    requires Retried(r, g, n, entries, log, elapsed)
    requires n < |r.attempts| && n < AttemptLimit(r.maxRetries)
    requires Reached(r, g, n + 1, after, log') && !Passed(r, n)
    requires elapsed' == if n + 1 < g.maxRetries then elapsed + g.delay else elapsed
    ensures Retried(r, g, n + 1, after, log', elapsed')
  {
    assert Pauses(n, r.maxRetries) == n;
    assert Pauses(n + 1, r.maxRetries) == if n + 1 < g.maxRetries then n + 1 else n;
    assert Offset(n + 1, r.delay) == Offset(n, r.delay) + r.delay;
  }

  /** A passing attempt `n` ends the call with success. */
  lemma RetryPassed(r: Retry, g: Log, n: nat, entries: map<string, Files.FileInfo>, log: seq<Event>, elapsed: int,
                    after: map<string, Files.FileInfo>, log': seq<Event>)
    requires Retried(r, g, n, entries, log, elapsed)
    requires n < |r.attempts| && n < AttemptLimit(r.maxRetries)
    requires Reached(r, g, n + 1, after, log') && Passed(r, n)
    ensures RetryOutcome(r, g, n + 1, true, after, log', elapsed)
  {
  }

  /** The attempt after `n` failures, run at time `now`: its verdict is the
      one the call's description gives it, and the files and the log have
      reached their state after `n + 1` attempts. */
  lemma RetryStep(r: Retry, g: Log, n: nat, entries: map<string, Files.FileInfo>, log: seq<Event>, elapsed: int,
                  a: Camera.Attempt, now: int, after: map<string, Files.FileInfo>, step: Step, log': seq<Event>)
    requires n < |r.attempts| && Reached(r, g, n, entries, log) && elapsed == Offset(n, r.delay)
    requires a == r.attempts[n] && now == r.t0 + elapsed
    requires after == Camera.AfterAttempt(entries, r.path, a, now)
    requires step == Judge(r.camera, a, after, r.path)
    requires log' == log + AttemptEvents(g, n, step)
    ensures step == StepOf(r, n) && (step.passed <==> Passed(r, n))
    ensures Reached(r, g, n + 1, after, log')
  {
    StoreStep(r, n, entries, elapsed, a, now, after);
    LogStep(r, g, n, log);
  }

  /** One more attempt after `n` failures: it either ends the call with
      success or extends the run of failures, pausing only before another
      attempt. */
  lemma RetryAdvance(r: Retry, g: Log, n: nat, entries: map<string, Files.FileInfo>, log: seq<Event>, elapsed: int,
                     a: Camera.Attempt, now: int, after: map<string, Files.FileInfo>, step: Step,
                     log': seq<Event>, elapsed': int)
    requires Retried(r, g, n, entries, log, elapsed) && n < |r.attempts| && n < AttemptLimit(r.maxRetries)
    requires a == r.attempts[n] && now == r.t0 + elapsed
    requires after == Camera.AfterAttempt(entries, r.path, a, now)
    requires step == Judge(r.camera, a, after, r.path)
    requires log' == log + AttemptEvents(g, n, step)
    requires elapsed' == elapsed + if !step.passed && n + 1 < g.maxRetries then g.delay else 0
    ensures step.passed ==> RetryOutcome(r, g, n + 1, true, after, log', elapsed')
    ensures !step.passed ==> Retried(r, g, n + 1, after, log', elapsed')
  {
    assert Pauses(n, r.maxRetries) == n;
    RetryStep(r, g, n, entries, log, elapsed, a, now, after, step, log');
    if step.passed {
      RetryPassed(r, g, n, entries, log, elapsed, after, log');
    } else {
      RetryFailed(r, g, n, entries, log, elapsed, after, log', elapsed');
    }
  }

  /** A failed first attempt whose pause raises, the retry delay being negative. */
  lemma RetryRaises(r: Retry, g: Log, entries: map<string, Files.FileInfo>, log: seq<Event>, elapsed: int,
                    a: Camera.Attempt, now: int, after: map<string, Files.FileInfo>, step: Step)
    requires Retried(r, g, 0, entries, log, elapsed) && 0 < |r.attempts|
    requires a == r.attempts[0] && now == r.t0 + elapsed
    requires after == Camera.AfterAttempt(entries, r.path, a, now)
    requires step == Judge(r.camera, a, after, r.path) && !step.passed
    requires r.delay < 0 && 1 < r.maxRetries
    ensures log == [] && elapsed == 0
    ensures RetryRaised(r, g, after, AttemptLines(g, 0, step))
  {
    StoreStep(r, 0, entries, elapsed, a, now, after);
  }

  /** The two lines of an attempt hold neither a clean-up nor a stop. */
  lemma AttemptLinesQuiet(g: Log, k: nat, step: Step)
    ensures Tally(AttemptLines(g, k, step), KCleanedUp) == 0 && Tally(AttemptLines(g, k, step), KStopped) == 0
  {
    TallyNone(AttemptLines(g, k, step), KCleanedUp);
    TallyNone(AttemptLines(g, k, step), KStopped);
  }

  /** Every allowed attempt failed. */
  lemma RetryExhausted(r: Retry, g: Log, n: nat, entries: map<string, Files.FileInfo>, log: seq<Event>, elapsed: int)
    requires Retried(r, g, n, entries, log, elapsed) && n == AttemptLimit(r.maxRetries)
    ensures RetryOutcome(r, g, n, false, entries, log, elapsed)
  {
  }

  /** The closing counts of one call: `used` attempts ending in success or in
      exhaustion; exactly `used - 1` pauses, and no pause after the last attempt. */
  lemma RetryOutcomeCounts(r: Retry, g: Log, used: nat, success: bool,
                           entries: map<string, Files.FileInfo>, log: seq<Event>, elapsed: int)
    requires RetryOutcome(r, g, used, success, entries, log, elapsed)
    ensures Tally(log, KInvoked) == used
    ensures Tally(log, KSlept) == if used == 0 then 0 else used - 1
    ensures Tally(log, KSucceeded) == if success then 1 else 0
    ensures Tally(log, KFailed) == if success then used - 1 else used
    ensures Tally(log, KCleanedUp) == 0 && Tally(log, KStopped) == 0
    ensures forall e :: e in log && e.Invoked? ==> e.path == r.path
    ensures elapsed == Offset(if used == 0 then 0 else used - 1, r.delay)
    ensures success ==> Files.Verified(entries, r.path)
  {
    var steps := Verdicts(r);
    forall j | 0 <= j < used - 1
      ensures !steps[j].passed
    {
      FailedBeforeAt(r, if success then used - 1 else used, j);
    }
    AttemptsLogInvocations(g, steps, used);
    AttemptsLogQuiet(g, steps, used);
    AttemptsLogResults(g, steps, used);
    AttemptsLogPauses(g, steps, used);
    AttemptsLogOnePath(g, steps, used);
  }

  /** The clean-ups a run of `n` captures triggers, counting from `total` captures before it. */
  function CleanupsDue(total: nat, n: nat): nat
  {
    if n == 0 then 0 else CleanupsDue(total, n - 1) + if (total + n) % 10 == 0 then 1 else 0
  }

  /** One clean-up for every multiple of ten the capture total passes. */
  lemma {:induction false} CleanupsDueClosedForm(total: nat, n: nat)
    ensures CleanupsDue(total, n) == (total + n) / 10 - total / 10
  {
    if n > 0 {
      CleanupsDueClosedForm(total, n - 1);
      var m := total + n - 1;
      assert (m + 1) / 10 == m / 10 + if (m + 1) % 10 == 0 then 1 else 0;
    }
  }

  /** What the world does during one pass of the continuous loop: the device
      state at its health check, the timestamp that names its file, and the
      outcome of each camera attempt. */
  datatype Cycle = Cycle(dev: Camera.DeviceTable, stamp: string, attempts: seq<Camera.Attempt>)

  /** How the loop of `run_continuous` was left: the stop signal cleared the
      run flag, a failed periodic check broke out, or an exception reached the
      `except`. */
  datatype Exit = Signalled | CheckFailed | Crashed

  /** What one call of `capture_with_retry` did, as `RetryEnded` describes it:
      the call, the attempts it used, the files it left and the lines it logged. */
  datatype Shot = Shot(retry: Retry, used: nat, entries: map<string, Files.FileInfo>, log: seq<Event>)

  /**
   * One pass of the loop of `run_continuous`: the clock when it began, the
   * status of its periodic check when one was due, how its
   * `capture_with_retry` ended (none when the check broke the loop first),
   * the seconds that capture spent in its retry pauses, and what the capture
   * did (of no meaning when there was none).
   */
  datatype PassLog = PassLog(at: int, checked: Option<Health.Status>, capture: Option<Completion<bool>>, took: int, shot: Shot)

  /** The outcome a capture recorded in the health history: one when it returned, none otherwise. */
  function Recorded(capture: Option<Completion<bool>>): seq<bool>
  {
    match capture
    case Some(Returned(success)) => [success]
    case _ => []
  }

  /** The pass's capture returned, so its outcome was recorded. */
  predicate Captured(p: PassLog)
  {
    Recorded(p.capture) != []
  }

  /** The outcomes the passes `ps` recorded, oldest first. */
  function Outcomes(ps: seq<PassLog>): seq<bool>
  {
    if ps == [] then [] else Outcomes(ps[..|ps| - 1]) + Recorded(ps[|ps| - 1].capture)
  }

  /** When the last health check ran once the passes `ps` are over, the one before them having run at `init`. */
  function LastCheck(init: Option<int>, ps: seq<PassLog>): Option<int>
  {
    if ps == [] then init
    else if ps[|ps| - 1].checked.Some? then Some(ps[|ps| - 1].at)
    else LastCheck(init, ps[..|ps| - 1])
  }

  /** The three events `stop` emits when it runs: the stop line, the final
      metrics and the capture statistics. */
  function StopLog(stats: Files.CaptureStats): seq<Event>
  {
    [SystemStopped, MetricsPrinted, StatsReported(stats)]
  }

  /** A log holds no event of kind `k`. */
  lemma {:induction false} TallyNone(es: seq<Event>, k: Kind)
    requires forall e :: e in es ==> !Is(e, k)
    ensures Tally(es, k) == 0
    decreases |es|
  {
    if es != [] {
      assert es[|es| - 1] in es;
      assert forall e :: e in es[..|es| - 1] ==> e in es;
      TallyNone(es[..|es| - 1], k);
    }
  }

  /** Appending events that are neither clean-ups nor stops leaves both tallies as they were. */
  lemma QuietAppend(es: seq<Event>, more: seq<Event>)
    requires forall e :: e in more ==> !e.CleanedUp? && !e.SystemStopped?
    ensures Tally(es + more, KCleanedUp) == Tally(es, KCleanedUp)
    ensures Tally(es + more, KStopped) == Tally(es, KStopped)
  {
    TallyNone(more, KCleanedUp);
    TallyNone(more, KStopped);
    TallyAppend(es, more, KCleanedUp);
    TallyAppend(es, more, KStopped);
  }

  /** A pass that adds the outcomes `more` (none or one) after `h0` and
      `before`, with a clean-up exactly when it recorded one that brought the
      total to a multiple of ten, keeps the clean-up count in step. */
  lemma CleanupsStep(h0: seq<bool>, before: seq<bool>, more: seq<bool>, tail: seq<Event>, delta: seq<Event>)
    requires |more| <= 1 && Tally(tail, KCleanedUp) == CleanupsDue(|h0|, |before|)
    requires Tally(delta, KCleanedUp) == if more != [] && |h0 + before + more| % 10 == 0 then 1 else 0
    ensures Tally(tail + delta, KCleanedUp) == CleanupsDue(|h0|, |before + more|)
  {
    TallyAppend(tail, delta, KCleanedUp);
  }

  /** Events after a log with no clean-up and no stop are all that count. */
  lemma QuietThen(quiet: seq<Event>, more: seq<Event>)
    requires Tally(quiet, KStopped) == 0 && Tally(quiet, KCleanedUp) == 0
    ensures Tally(quiet + more, KStopped) == Tally(more, KStopped)
    ensures Tally(quiet + more, KCleanedUp) == Tally(more, KCleanedUp)
  {
    TallyAppend(quiet, more, KStopped);
    TallyAppend(quiet, more, KCleanedUp);
  }

  /** The events of `stop` hold one stop and no clean-up. */
  lemma StopTally(stats: Files.CaptureStats)
    ensures Tally(StopLog(stats), KStopped) == 1 && Tally(StopLog(stats), KCleanedUp) == 0
  {
    var stop := StopLog(stats);
    TallyNone(stop, KCleanedUp);
    assert stop[..2] == [SystemStopped, MetricsPrinted];
    assert stop[..2][..1] == [SystemStopped];
    TallySingle(SystemStopped, KStopped);
  }

  /** The last `n` events of a concatenation come from its second part. */
  lemma SuffixOfAppend(a: seq<Event>, b: seq<Event>, n: nat)
    requires n <= |b|
    ensures (a + b)[|a + b| - n..] == b[|b| - n..]
  {
  }

  /** A pass's events: those of its cycle, then either nothing to count or the stop reports. */
  lemma PassTally(cycle: seq<Event>, ending: seq<Event>, stats: Files.CaptureStats, last: bool)
    requires Tally(ending, KCleanedUp) == 0 && Tally(ending, KStopped) == (if last then 1 else 0)
    requires last ==> ending == StopLog(stats)
    ensures Tally(cycle + ending, KCleanedUp) == Tally(cycle, KCleanedUp)
    ensures Tally(cycle + ending, KStopped) == Tally(cycle, KStopped) + if last then 1 else 0
    ensures last ==> |cycle + ending| >= 3 && (cycle + ending)[|cycle + ending| - 3..] == StopLog(stats)
  {
    if last {
      StopAppend(cycle, stats);
    } else {
      TallyAppend(cycle, ending, KCleanedUp);
      TallyAppend(cycle, ending, KStopped);
    }
  }

  /** A log followed by the events of `stop`: one more stop, no more clean-ups,
      and the stop events last. */
  lemma StopAppend(tail: seq<Event>, stats: Files.CaptureStats)
    ensures Tally(tail + StopLog(stats), KCleanedUp) == Tally(tail, KCleanedUp)
    ensures Tally(tail + StopLog(stats), KStopped) == Tally(tail, KStopped) + 1
    ensures |tail + StopLog(stats)| >= 3 && (tail + StopLog(stats))[|tail + StopLog(stats)| - 3..] == StopLog(stats)
  {
    StopTally(stats);
    TallyAppend(tail, StopLog(stats), KCleanedUp);
    TallyAppend(tail, StopLog(stats), KStopped);
    SuffixOfAppend(tail, StopLog(stats), 3);
  }

  /** The pause of `warm_up`: the warm-up delay when it is positive, none otherwise. */
  function WarmUpPause(cam: Camera.Settings): nat
  {
    match Camera.WarmUpSleep(cam)
    case Some(d) => d
    case None => 0
  }

  /** The events of `warm_up`. */
  function WarmUpEvents(cam: Camera.Settings): seq<Event>
  {
    match Camera.WarmUpSleep(cam)
    case Some(d) => [Slept(d)]
    case None => []
  }

  /** The listing of `list_available_devices` for the device table `dev`. */
  ghost predicate Lists(devices: seq<string>, dev: Camera.DeviceTable)
  {
    var idx := Camera.PresentIndices(dev.present, Camera.DeviceSlots);
    |devices| == |idx| && forall j :: 0 <= j < |devices| ==> devices[j] == Camera.DevicePath(idx[j])
  }

  class CaptureSystem {
    const health: Health.HealthCheck
    const files: Files.FileManager
    const camera: Camera.Settings
    const interval: int
    const maxRetries: int
    const retryDelay: int

    var running: bool
    var clock: int
    var events: seq<Event>

    ghost predicate Valid()
      reads health
    {
      && health.Valid()
      && health.camera == camera
    }

    constructor (health: Health.HealthCheck, files: Files.FileManager, camera: Camera.Settings,
                 interval: int, maxRetries: int, retryDelay: int, now: int)
      requires health.Valid() && health.camera == camera
      ensures Valid()
      ensures this.health == health && this.files == files && this.camera == camera
      ensures this.interval == interval && this.maxRetries == maxRetries && this.retryDelay == retryDelay
      ensures !running && clock == now && events == []
    {
      this.health := health;
      this.files := files;
      this.camera := camera;
      this.interval := interval;
      this.maxRetries := maxRetries;
      this.retryDelay := retryDelay;
      running := false;
      clock := now;
      events := [];
    }

    /** `time.sleep`, which raises `ValueError` for a negative length and then neither waits nor logs. */
    method Sleep(seconds: int) returns (r: Completion<()>)
      modifies this
      ensures r.Returned? <==> seconds >= 0
      ensures r.Returned? ==> events == old(events) + [Slept(seconds)] && clock == old(clock) + seconds
      ensures r.Threw? ==> events == old(events) && clock == old(clock)
      ensures running == old(running)
    {
      if seconds < 0 {
        return Threw;
      }
      events := events + [Slept(seconds)];
      clock := clock + seconds;
      r := Returned(());
    }

    /** The whole state of one call of `capture_with_retry` on `path` that starts now. */
    ghost function RetryFrom(path: string, attempts: seq<Camera.Attempt>): Retry
      reads this, files.fs
    {
      Retry(camera, path, files.fs.entries, clock, retryDelay, maxRetries, attempts)
    }

    /** The shape of the log lines of one call of `capture_with_retry` on `path`. */
    function LogFor(path: string): Log
    {
      Log(path, Files.Basename(path), maxRetries, retryDelay)
    }

    /**
     * One pass of the attempt loop of `capture_with_retry`: run the camera on
     * `outputPath`, check the file it left, log the outcome, and pause after a
     * failure when another attempt is allowed; that pause raises when the
     * retry delay is negative.
     */
    method TryOnce(outputPath: string, name: string, attempt: nat, a: Camera.Attempt)
      returns (passed: bool, raised: bool, ghost step: Step)
      requires attempt >= 1
      modifies this, files.fs
      ensures files.fs.entries == Camera.AfterAttempt(old(files.fs.entries), outputPath, a, old(clock))
      ensures step == Judge(camera, a, files.fs.entries, outputPath) && passed == step.passed
      ensures raised <==> !passed && attempt < maxRetries && retryDelay < 0
      ensures var g := Log(outputPath, name, maxRetries, retryDelay);
              events == old(events) + if raised then AttemptLines(g, attempt - 1, step) else AttemptEvents(g, attempt - 1, step)
      ensures clock == old(clock) + if !passed && attempt < maxRetries && !raised then retryDelay else 0
      ensures running == old(running)
    {
      var report := Camera.CaptureImage(camera, files.fs, outputPath, a, clock);
      if report.success && files.VerifyFileExists(outputPath) {
        events := events + [Invoked(outputPath), CaptureSucceeded(name, attempt)];
        return true, false, Step(true, "");
      }
      var error := if report.success then VerificationFailed else report.error.value;
      events := events + [Invoked(outputPath), CaptureFailed(error, attempt, maxRetries)];
      passed, raised, step := false, false, Step(false, error);
      if attempt < maxRetries {
        var slept := Sleep(retryDelay);
        raised := slept.Threw?;
      }
    }

    /** The attempt after `n` failures of a call described by `r` (attempt
        number `n + 1`): the events logged so far are `log0`, on top of `e0`. */
    method NextAttempt(outputPath: string, name: string, n: nat, a: Camera.Attempt, ghost r: Retry, ghost g: Log,
                       ghost e0: seq<Event>, ghost log0: seq<Event>)
      returns (passed: bool, raised: bool, ghost log: seq<Event>)
      requires n < AttemptLimit(maxRetries) && n < |r.attempts|
      requires retryDelay < 0 ==> n == 0
      requires a == r.attempts[n]
      requires r.camera == camera && r.path == outputPath && r.maxRetries == maxRetries && r.delay == retryDelay
      requires g == Log(outputPath, name, maxRetries, retryDelay)
      requires Retried(r, g, n, files.fs.entries, log0, clock - r.t0) && events == e0 + log0
      modifies this, files.fs
      ensures events == e0 + log && running == old(running)
      ensures raised ==> !passed && RetryRaised(r, g, files.fs.entries, log) && clock == r.t0
      ensures passed ==> !raised && RetryOutcome(r, g, n + 1, true, files.fs.entries, log, clock - r.t0)
      ensures !passed && !raised ==> Retried(r, g, n + 1, files.fs.entries, log, clock - r.t0)
      ensures !passed && !raised && retryDelay < 0 ==> n + 1 >= maxRetries
    {
      ghost var before, now := files.fs.entries, clock;
      ghost var step;
      passed, raised, step := TryOnce(outputPath, name, n + 1, a);
      if raised {
        RetryRaises(r, g, before, log0, now - r.t0, a, now, files.fs.entries, step);
        log := AttemptLines(g, n, step);
        assert e0 + log0 == e0;
        return;
      }
      AppendAssoc(e0, log0, AttemptEvents(g, n, step));
      log := log0 + AttemptEvents(g, n, step);
      RetryAdvance(r, g, n, before, log0, now - r.t0, a, now, files.fs.entries, step, log, clock - r.t0);
    }

    /**
     * The attempt loop of `capture_with_retry`: one output path for every
     * attempt; the first attempt that reports success and leaves a non-empty
     * file ends the loop; failures other than the last are followed by a pause.
     */
    method Attempts(outputPath: string, attempts: seq<Camera.Attempt>, ghost r: Retry)
      returns (result: Completion<bool>, ghost used: nat, ghost log: seq<Event>)
      requires |attempts| >= AttemptLimit(maxRetries)
      requires r.camera == camera && r.path == outputPath && r.maxRetries == maxRetries && r.delay == retryDelay
      requires r.t0 == clock && r.start == files.fs.entries && r.attempts == attempts
      modifies this, files.fs
      ensures RetryEnded(r, LogFor(outputPath), used, result, files.fs.entries, log, clock - r.t0)
      ensures events == old(events) + log
      ensures running == old(running)
    {
      var name := files.GetFilename(outputPath);
      ghost var g := LogFor(outputPath);
      assert g == Log(outputPath, name, maxRetries, retryDelay);
      result, used, log := AttemptLoop(outputPath, name, attempts, r, g);
    }

    /** The loop of `Attempts`, with the file name each attempt logs already computed. */
    method AttemptLoop(outputPath: string, name: string, attempts: seq<Camera.Attempt>, ghost r: Retry, ghost g: Log)
      returns (result: Completion<bool>, ghost used: nat, ghost log: seq<Event>)
      requires |attempts| >= AttemptLimit(maxRetries)
      requires r.camera == camera && r.path == outputPath && r.maxRetries == maxRetries && r.delay == retryDelay
      requires r.t0 == clock && r.start == files.fs.entries && r.attempts == attempts
      requires g == Log(outputPath, name, maxRetries, retryDelay)
      modifies this, files.fs
      ensures RetryEnded(r, g, used, result, files.fs.entries, log, clock - r.t0)
      ensures events == old(events) + log
      ensures running == old(running)
    {
      ghost var e0 := events;
      log := [];
      RetryStart(r, g);
      var tried := 0;
      while tried < maxRetries
        invariant tried <= AttemptLimit(maxRetries)
        invariant Retried(r, g, tried, files.fs.entries, log, clock - r.t0)
        invariant retryDelay < 0 ==> tried == 0 || tried >= maxRetries
        invariant events == e0 + log && running == old(running)
        decreases maxRetries - tried
      {
        var passed, raised;
        passed, raised, log := NextAttempt(outputPath, name, tried, attempts[tried], r, g, e0, log);
        if raised {
          return Threw, 1, log;
        }
        if passed {
          return Returned(true), tried + 1, log;
        }
        tried := tried + 1;
      }
      RetryExhausted(r, g, tried, files.fs.entries, log, clock - r.t0);
      result, used := Returned(false), tried;
    }

    /** `capture_with_retry`: the attempt loop, then the outcome recorded once. */
    method CaptureWithRetry(stamp: string, attempts: seq<Camera.Attempt>, ghost r: Retry)
      returns (result: Completion<bool>, ghost used: nat, ghost log: seq<Event>)
      requires Valid()
      requires |attempts| >= AttemptLimit(maxRetries)
      requires r == RetryFrom(files.GenerateFilename(stamp), attempts)
      modifies this, health, files.fs
      ensures Valid()
      ensures RetryEnded(r, LogFor(files.GenerateFilename(stamp)), used, result, files.fs.entries, log, clock - r.t0)
      ensures events == old(events) + log
      ensures health.history == old(health.history) + Recorded(Some(result))
      ensures health.lastHealthCheck == old(health.lastHealthCheck)
      ensures health.cameraDisconnects == old(health.cameraDisconnects)
      ensures running == old(running)
      ensures result.Threw? ==> retryDelay < 0
      ensures Tally(log, KStopped) == 0 && Tally(log, KCleanedUp) == 0
    {
      var outputPath := files.GenerateFilename(stamp);
      result, used, log := Attempts(outputPath, attempts, r);
      match result
      case Returned(success) =>
        RetryOutcomeCounts(r, LogFor(outputPath), used, success, files.fs.entries, log, clock - r.t0);
        health.RecordCaptureAttempt(success, clock);
      case Threw =>
        AttemptLinesQuiet(LogFor(outputPath), 0, StepOf(r, 0));
    }

    /** The status `check_camera_health` gives for the device table `dev` after a run of `failures` failed captures. */
    function VerdictWith(dev: Camera.DeviceTable, failures: nat): Health.Status
    {
      Health.Assess(Camera.IsDevicePresent(camera, dev), Camera.CheckDevicePermissions(camera, dev),
                    failures, health.maxFailures, camera.device).0
    }

    /** The status `check_camera_health` reports for the device table `dev` now. */
    function Verdict(dev: Camera.DeviceTable): Health.Status
      reads health
    {
      VerdictWith(dev, health.consecutiveFailures)
    }

    /** The events of one health check: the disconnect alert, then the status
        line where the caller logs it. */
    function CheckLog(dev: Camera.DeviceTable, status: Health.Status, logged: bool): seq<Event>
    {
      (if !Camera.IsDevicePresent(camera, dev) && health.alertOnDisconnect then [DisconnectAlerted] else [])
      + if logged then [HealthChecked(status)] else []
    }

    /** `check_camera_health` at the current time, with the status logged when `logged`. */
    method Check(dev: Camera.DeviceTable, logged: bool) returns (status: Health.Status)
      requires Valid()
      modifies this, health
      ensures Valid() && health.history == old(health.history)
      ensures health.consecutiveFailures == old(health.consecutiveFailures)
      ensures status == old(Verdict(dev))
      ensures health.lastHealthCheck == Some(old(clock))
      ensures events == old(events) + CheckLog(dev, status, logged)
      ensures clock == old(clock) && running == old(running)
    {
      var details, alerted;
      status, details, alerted := health.CheckCameraHealth(clock, dev);
      if alerted {
        events := events + [DisconnectAlerted];
      }
      if logged {
        events := events + [HealthChecked(status)];
      }
    }

    /** `warm_up`. */
    method WarmUp()
      modifies this
      ensures events == old(events) + WarmUpEvents(camera) && clock == old(clock) + WarmUpPause(camera)
      ensures running == old(running)
    {
      match Camera.WarmUpSleep(camera)
      case Some(d) =>
        var slept := Sleep(d);
      case None =>
    }

    /** `stop`: only a running system stops, with its stop line, the final
        metrics and the statistics of the captures on disk; a second call does nothing. */
    method Stop() returns (ghost stats: Files.CaptureStats)
      modifies this
      ensures !running && clock == old(clock)
      ensures old(running) ==> events == old(events) + StopLog(stats)
      ensures old(running) ==> Files.Summarises(stats, files.fs.entries, files.Captures(files.fs.entries))
      ensures !old(running) ==> events == old(events)
    {
      stats := Files.CaptureStats(0, 0, None, None);
      if !running {
        return;
      }
      running := false;
      events := events + [SystemStopped, MetricsPrinted];
      var s := files.GetCaptureStats();
      events := events + [StatsReported(s)];
      stats := s;
    }

    /** The periodic health check of the continuous loop: it runs when due, and
        then sets the time of the last check and gives its status. */
    method CheckIfDue(dev: Camera.DeviceTable) returns (checked: Option<Health.Status>, ghost delta: seq<Event>)
      requires Valid()
      modifies this, health
      ensures Valid() && running == old(running) && clock == old(clock) && events == old(events) + delta
      ensures health.history == old(health.history)
      ensures checked.Some? <==> old(health.ShouldRunHealthCheck(clock))
      ensures checked.Some? ==> checked.value == old(Verdict(dev))
      ensures health.lastHealthCheck == if checked.Some? then Some(old(clock)) else old(health.lastHealthCheck)
      ensures Tally(delta, KStopped) == 0 && Tally(delta, KCleanedUp) == 0
    {
      delta := [];
      checked := None;
      if health.ShouldRunHealthCheck(clock) {
        var status := Check(dev, false);
        delta := CheckLog(dev, status, false);
        TallyNone(delta, KStopped);
        TallyNone(delta, KCleanedUp);
        checked := Some(status);
      }
    }

    /** `capture_with_retry` as pass `i` of the continuous loop over `cycles`
        calls it, the passes `trace` having run and the pass's check having given
        `checked`: on the file the pass's stamp names, over its attempts, from
        the files and the clock as they are. `p` records the pass: how the call
        ended, with its outcome recorded when it returned. */
    method CaptureCounted(cycles: seq<Cycle>, i: nat, ghost trace: seq<PassLog>, ghost checked: Option<Health.Status>)
      returns (result: Completion<bool>, ghost p: PassLog)
      requires Valid() && i == |trace| < |cycles| && AllShoot(cycles, trace)
      requires |cycles[i].attempts| >= AttemptLimit(maxRetries)
      modifies this, health, files.fs
      ensures Valid() && running == old(running) && events == old(events) + p.shot.log
      ensures p.at == old(clock) && p.checked == checked && p.capture == Some(result) && p.took == clock - old(clock)
      ensures p.shot.retry == old(RetryFrom(files.GenerateFilename(cycles[i].stamp), cycles[i].attempts))
      ensures RetryEnded(p.shot.retry, LogFor(p.shot.retry.path), p.shot.used, result, p.shot.entries, p.shot.log, p.took) == true
      ensures AllShoot(cycles, trace + [p])
      ensures files.fs.entries == p.shot.entries
      ensures health.history == old(health.history) + Recorded(Some(result))
      ensures health.lastHealthCheck == old(health.lastHealthCheck)
      ensures result.Threw? ==> retryDelay < 0
      ensures Tally(p.shot.log, KStopped) == 0 && Tally(p.shot.log, KCleanedUp) == 0
    {
      ghost var r := RetryFrom(files.GenerateFilename(cycles[i].stamp), cycles[i].attempts);
      ghost var used, log;
      assert r.path == files.GenerateFilename(cycles[i].stamp) && r.t0 == clock;
      result, used, log := CaptureWithRetry(cycles[i].stamp, cycles[i].attempts, r);
      p := PassLog(old(clock), checked, Some(result), clock - old(clock), Shot(r, used, files.fs.entries, log));
      AllShootStep(cycles, trace, p);
    }

    /** `cleanup_old_captures` at the current time, with its count logged. */
    method Cleanup() returns (deleted: nat)
      modifies this, files.fs
      ensures files.Swept(old(files.fs.entries), files.fs.entries, old(clock), deleted)
      ensures events == old(events) + [CleanedUp(deleted)]
      ensures clock == old(clock) && running == old(running)
    {
      deleted := files.CleanupOldCaptures(clock);
      events := events + [CleanedUp(deleted)];
    }

    /** The clean-up of the continuous loop when it is `due`; otherwise the
        files stay as they are and nothing is logged. */
    method CleanIfDue(due: bool) returns (ghost delta: seq<Event>, ghost deleted: nat)
      modifies this, files.fs
      ensures !due ==> files.fs.entries == old(files.fs.entries) && delta == []
      ensures events == old(events) + delta && clock == old(clock) && running == old(running)
      ensures Tally(delta, KStopped) == 0 && Tally(delta, KCleanedUp) == if due then 1 else 0
      ensures due ==> delta == [CleanedUp(deleted)] && files.Swept(old(files.fs.entries), files.fs.entries, old(clock), deleted)
    {
      delta, deleted := [], 0;
      if due {
        deleted := Cleanup();
        delta := [CleanedUp(deleted)];
        CleanupLine(deleted);
      }
    }

    /** The capture of pass `i` of the continuous loop over `cycles`, the passes
        `trace` having run and its check having given `checked`, then, when the
        capture returned, the clean-up if the capture total is a multiple of ten.
        The capture is the call of `capture_with_retry` on the file the pass's
        stamp names, over its attempts, from the files and the clock as they
        are; `p` records the pass, and it captured as `Shoots` says. */
    method CaptureAndClean(cycles: seq<Cycle>, i: nat, ghost trace: seq<PassLog>, ghost checked: Option<Health.Status>)
      returns (result: Completion<bool>, ghost p: PassLog, ghost cleaning: seq<Event>, ghost delta: seq<Event>, ghost deleted: nat)
      requires Valid() && i == |trace| < |cycles| && AllShoot(cycles, trace)
      requires |cycles[i].attempts| >= AttemptLimit(maxRetries)
      modifies this, health, files.fs
      ensures Valid() && running == old(running) && events == old(events) + delta
      ensures p.at == old(clock) && p.checked == checked && p.capture == Some(result) && p.took == clock - old(clock)
      ensures p.shot.retry == old(RetryFrom(files.GenerateFilename(cycles[i].stamp), cycles[i].attempts))
      ensures AllShoot(cycles, trace + [p])
      ensures delta == p.shot.log + cleaning
      ensures health.history == old(health.history) + Recorded(Some(result))
      ensures health.lastHealthCheck == old(health.lastHealthCheck)
      ensures result.Threw? ==> retryDelay < 0
      ensures Tally(delta, KStopped) == 0
      ensures Tally(delta, KCleanedUp) == if result.Returned? && |health.history| % 10 == 0 then 1 else 0
      ensures cleaning == [] ==> files.fs.entries == p.shot.entries
      ensures cleaning != [] ==> cleaning == [CleanedUp(deleted)] && files.Swept(p.shot.entries, files.fs.entries, clock, deleted)
    {
      result, p := CaptureCounted(cycles, i, trace, checked);
      assert health.totalCaptures == |health.history|;
      cleaning, deleted := CleanIfDue(result.Returned? && health.totalCaptures % 10 == 0);
      QuietThen(p.shot.log, cleaning);
      AppendAssoc(old(events), p.shot.log, cleaning);
      delta := p.shot.log + cleaning;
    }

    /** One pass of the continuous loop up to its pause: the periodic check and,
        unless it failed, the capture and the clean-up rule. */
    method RunCycle(cycles: seq<Cycle>, i: nat, ghost trace: seq<PassLog>)
      returns (broke: bool, raised: bool, ghost p: PassLog, ghost delta: seq<Event>)
      requires Valid() && i == |trace| < |cycles| && AllShoot(cycles, trace)
      requires |cycles[i].attempts| >= AttemptLimit(maxRetries)
      modifies this, health, files.fs
      ensures Valid() && running == old(running) && events == old(events) + delta
      ensures p.at == old(clock) && clock == p.at + p.took
      ensures p.checked.Some? <==> old(health.ShouldRunHealthCheck(clock))
      ensures p.checked.Some? ==> p.checked.value == old(Verdict(cycles[i].dev))
      ensures health.lastHealthCheck == if p.checked.Some? then Some(p.at) else old(health.lastHealthCheck)
      ensures health.history == old(health.history) + Recorded(p.capture)
      ensures broke <==> p.checked == Some(Health.Failed)
      ensures broke <==> p.capture == None
      ensures raised <==> p.capture == Some(Threw)
      ensures raised ==> retryDelay < 0
      ensures AllShoot(cycles, trace + [p]) && (p.capture.Some? ==> p.shot.retry.start == old(files.fs.entries))
      ensures p.capture.None? ==> files.fs.entries == old(files.fs.entries)
      ensures Tally(delta, KStopped) == 0
      ensures Tally(delta, KCleanedUp) == if Captured(p) && |health.history| % 10 == 0 then 1 else 0
    {
      var checked;
      ghost var checkLog;
      checked, checkLog := CheckIfDue(cycles[i].dev);
      if checked == Some(Health.Failed) {
        ghost var none := Shot(RetryFrom(files.GenerateFilename(cycles[i].stamp), cycles[i].attempts), 0, files.fs.entries, []);
        p := PassLog(old(clock), checked, None, 0, none);
        AllShootStep(cycles, trace, p);
        return true, false, p, checkLog;
      }
      var result;
      ghost var cleaning, captured;
      ghost var deleted;
      result, p, cleaning, captured, deleted := CaptureAndClean(cycles, i, trace, checked);
      AppendAssoc(old(events), checkLog, captured);
      TallyAppend(checkLog, captured, KStopped);
      TallyAppend(checkLog, captured, KCleanedUp);
      delta := checkLog + captured;
      broke, raised := false, result.Threw?;
    }

    /**
     * The end of a pass of the loop of `run_continuous`. The stop signal
     * arrives at the end of the `last` scripted pass, before the pause, so
     * `stop` runs and no pause follows; otherwise the pass ends with the pause
     * of `interval` seconds, which raises when the interval is negative.
     */
    method EndPass(last: bool) returns (leave: Option<Exit>, ghost delta: seq<Event>, ghost stats: Files.CaptureStats)
      requires running
      modifies this
      ensures events == old(events) + delta
      ensures last ==> leave == Some(Signalled) && !running && delta == StopLog(stats) && clock == old(clock)
      ensures !last && interval >= 0 ==>
                leave == None && running && delta == [Slept(interval)] && clock == old(clock) + interval
      ensures !last && interval < 0 ==> leave == Some(Crashed) && running && delta == [] && clock == old(clock)
      ensures Tally(delta, KCleanedUp) == 0
      ensures Tally(delta, KStopped) == if last then 1 else 0
    {
      stats := Files.CaptureStats(0, 0, None, None);
      delta := [];
      leave := None;
      if last {
        stats := Stop();
        StopTally(stats);
        delta := StopLog(stats);
        leave := Some(Signalled);
      }
      if running {
        var slept := Sleep(interval);
        if slept.Threw? {
          leave := Some(Crashed);
        } else {
          delta := [Slept(interval)];
          TallySingle(Slept(interval), KCleanedUp);
          TallySingle(Slept(interval), KStopped);
        }
      }
    }

    /** How the last pass `p` raised: in its capture, or in its pause when the interval is negative. */
    predicate CrashedIn(p: PassLog)
    {
      p.capture == Some(Threw) || (Captured(p) && interval < 0)
    }

    /**
     * The capture of pass `p` on the world `c`: when the pass captured, it
     * was the call of `capture_with_retry` on the file `c.stamp` names, over
     * the attempts `c.attempts`, with the system's camera, delay and limit,
     * begun with the pass and ended as `p.capture` says, its pauses taking
     * `p.took` seconds; a pass that did not capture took no time.
     */
    ghost predicate Shoots(c: Cycle, p: PassLog)
    {
      match p.capture
      case None => p.took == 0
      case Some(result) =>
        var r := p.shot.retry;
        && r.camera == camera && r.path == files.GenerateFilename(c.stamp) && r.attempts == c.attempts
        && r.t0 == p.at && r.delay == retryDelay && r.maxRetries == maxRetries
        && RetryEnded(r, LogFor(r.path), p.shot.used, result, p.shot.entries, p.shot.log, p.took)
    }

    /** Every pass of `trace` captured as `Shoots` says, on its own cycle of `cycles`. */
    ghost predicate AllShoot(cycles: seq<Cycle>, trace: seq<PassLog>)
    {
      |trace| <= |cycles| && forall k {:trigger Shoots(cycles[k], trace[k])} :: 0 <= k < |trace| ==> Shoots(cycles[k], trace[k])
    }

    /** A pass that captured as `Shoots` says extends the passes that did. */
    lemma AllShootStep(cycles: seq<Cycle>, trace: seq<PassLog>, p: PassLog)
      requires AllShoot(cycles, trace) && |trace| < |cycles| && Shoots(cycles[|trace|], p) == true
      ensures AllShoot(cycles, trace + [p])
    {
      forall k | 0 <= k < |trace| + 1
        ensures Shoots(cycles[k], (trace + [p])[k])
      {
        if k < |trace| {
          assert (trace + [p])[k] == trace[k];
        }
      }
    }

    /** Pass `i` of the loop of `run_continuous` over `cycles` while the system
        runs, the passes `trace` having run, and how the loop goes on after it;
        the signal arrives after the last scripted pass. */
    method Pass(cycles: seq<Cycle>, i: nat, ghost trace: seq<PassLog>)
      returns (leave: Option<Exit>, ghost p: PassLog, ghost delta: seq<Event>, ghost stats: Files.CaptureStats)
      requires Valid() && running && i == |trace| < |cycles| && AllShoot(cycles, trace)
      requires |cycles[i].attempts| >= AttemptLimit(maxRetries)
      modifies this, health, files.fs
      ensures Valid() && events == old(events) + delta
      ensures p.at == old(clock)
      ensures p.checked.Some? <==> old(health.ShouldRunHealthCheck(clock))
      ensures p.checked.Some? ==> p.checked.value == old(Verdict(cycles[i].dev))
      ensures p.capture == None <==> p.checked == Some(Health.Failed)
      ensures p.capture == Some(Threw) ==> retryDelay < 0
      ensures AllShoot(cycles, trace + [p]) && (p.capture.Some? ==> p.shot.retry.start == old(files.fs.entries))
      ensures health.lastHealthCheck == if p.checked.Some? then Some(p.at) else old(health.lastHealthCheck)
      ensures health.history == old(health.history) + Recorded(p.capture)
      ensures running <==> leave != Some(Signalled)
      ensures leave == Some(CheckFailed) <==> p.capture == None
      ensures leave == None ==>
                && i + 1 < |cycles| && Captured(p) && clock == p.at + p.took + interval
                && |delta| >= 1 && delta[|delta| - 1] == Slept(interval)
      ensures leave == Some(Signalled) ==> i + 1 == |cycles| && Captured(p) && |delta| >= 3 && delta[|delta| - 3..] == StopLog(stats)
      ensures leave == Some(Crashed) ==> CrashedIn(p)
      ensures Tally(delta, KCleanedUp) == if Captured(p) && |health.history| % 10 == 0 then 1 else 0
      ensures Tally(delta, KStopped) == if running then 0 else 1
    {
      stats := Files.CaptureStats(0, 0, None, None);
      ghost var cycle;
      var broke, raised;
      broke, raised, p, cycle := RunCycle(cycles, i, trace);
      if broke {
        return Some(CheckFailed), p, cycle, stats;
      }
      if raised {
        return Some(Crashed), p, cycle, stats;
      }
      ghost var ending;
      var last := i + 1 == |cycles|;
      leave, ending, stats := EndPass(last);
      AppendAssoc(old(events), cycle, ending);
      PassTally(cycle, ending, stats, last);
      delta := cycle + ending;
    }

    /** The clock when the pass after the passes `ps` begins: `c0` for the first;
        otherwise the previous pass's start, plus its capture's pauses and the interval. */
    function NextStart(c0: int, ps: seq<PassLog>): int
    {
      if ps == [] then c0 else ps[|ps| - 1].at + ps[|ps| - 1].took + interval
    }

    /**
     * The passes `trace` as the loop of `run_continuous` runs them, on the
     * world `cycles`, starting at clock `c0` with the outcomes `h0` recorded and
     * the last health check at `init`. Each pass begins when the one before it
     * ended; its check runs exactly when the polling gate is open, and reports
     * the decision for that pass's device table and the failure run so far; the
     * capture is skipped exactly when that check failed, and raises only for a
     * negative retry delay; and no pass follows one whose capture did not return.
     */
    ghost predicate Chronicle(init: Option<int>, h0: seq<bool>, c0: int, cycles: seq<Cycle>, trace: seq<PassLog>)
      decreases |trace|
    {
      && |trace| <= |cycles|
      && (trace != [] ==>
            var prev, p := trace[..|trace| - 1], trace[|trace| - 1];
            && Chronicle(init, h0, c0, cycles, prev)
            && (prev != [] ==> Captured(prev[|prev| - 1]))
            && p.at == NextStart(c0, prev)
            && (p.checked.Some? <==> Health.DueAt(LastCheck(init, prev), health.checkInterval, p.at))
            && (p.checked.Some? ==> p.checked.value == VerdictWith(cycles[|prev|].dev, Health.TrailingFailures(h0 + Outcomes(prev))))
            && (p.capture == None <==> p.checked == Some(Health.Failed))
            && (p.capture == Some(Threw) ==> retryDelay < 0))
    }

    /** One more pass that behaved as `Chronicle` says extends the chronicle. */
    lemma ChronicleStep(init: Option<int>, h0: seq<bool>, c0: int, cycles: seq<Cycle>, trace: seq<PassLog>, p: PassLog)
      requires Chronicle(init, h0, c0, cycles, trace) && |trace| < |cycles|
      requires trace != [] ==> Captured(trace[|trace| - 1])
      requires p.at == NextStart(c0, trace)
      requires p.checked.Some? <==> Health.DueAt(LastCheck(init, trace), health.checkInterval, p.at)
      requires p.checked.Some? ==> p.checked.value == VerdictWith(cycles[|trace|].dev, Health.TrailingFailures(h0 + Outcomes(trace)))
      requires p.capture == None <==> p.checked == Some(Health.Failed)
      requires p.capture == Some(Threw) ==> retryDelay < 0
      ensures Chronicle(init, h0, c0, cycles, trace + [p])
      ensures Outcomes(trace + [p]) == Outcomes(trace) + Recorded(p.capture)
      ensures LastCheck(init, trace + [p]) == if p.checked.Some? then Some(p.at) else LastCheck(init, trace)
      ensures NextStart(c0, trace + [p]) == p.at + p.took + interval
    {
      assert (trace + [p])[..|trace|] == trace;
    }

    /**
     * Pass `k` of a chronicle, on its own: it began when pass `k - 1` ended; its
     * check ran exactly when due and gave the decision for the failure run left
     * by the passes before it; its capture was skipped exactly when that check
     * failed and raised only for a negative retry delay; and every pass but the
     * last recorded an outcome, so no earlier pass had a due check that failed.
     */
    lemma {:induction false} ChronicleAt(init: Option<int>, h0: seq<bool>, c0: int, cycles: seq<Cycle>,
                                         trace: seq<PassLog>, k: nat)
      requires Chronicle(init, h0, c0, cycles, trace) && k < |trace|
      ensures k < |cycles|
      ensures var p, prev := trace[k], trace[..k];
              && p.at == NextStart(c0, prev)
              && (p.checked.Some? <==> Health.DueAt(LastCheck(init, prev), health.checkInterval, p.at))
              && (p.checked.Some? ==> p.checked.value == VerdictWith(cycles[k].dev, Health.TrailingFailures(h0 + Outcomes(prev))))
              && (p.capture == None <==> p.checked == Some(Health.Failed))
              && (p.capture == Some(Threw) ==> retryDelay < 0)
              && (k < |trace| - 1 ==> Captured(p) && p.checked != Some(Health.Failed))
      decreases |trace|
    {
      var prev := trace[..|trace| - 1];
      if k < |trace| - 1 {
        ChronicleAt(init, h0, c0, cycles, prev, k);
        assert prev[..k] == trace[..k];
        if k == |prev| - 1 {
          assert Captured(prev[|prev| - 1]);
        }
      }
    }

    /** Every pass of a chronicle but the last recorded its outcome after a check that did not fail. */
    lemma ChronicleEarlier(init: Option<int>, h0: seq<bool>, c0: int, cycles: seq<Cycle>, trace: seq<PassLog>)
      requires Chronicle(init, h0, c0, cycles, trace)
      ensures forall k :: 0 <= k < |trace| - 1 ==> Captured(trace[k]) && trace[k].checked != Some(Health.Failed)
    {
      forall k | 0 <= k < |trace| - 1
        ensures Captured(trace[k]) && trace[k].checked != Some(Health.Failed)
      {
        ChronicleAt(init, h0, c0, cycles, trace, k);
      }
    }

    /** How a loop that left after the passes `trace` left: every pass but the
        last recorded an outcome after a check that did not fail, and a raise
        needs a negative retry delay or interval. */
    lemma LoopExit(init: Option<int>, h0: seq<bool>, c0: int, cycles: seq<Cycle>, trace: seq<PassLog>, exit: Exit)
      requires Chronicle(init, h0, c0, cycles, trace)
      requires exit == Crashed ==> trace != [] && CrashedIn(trace[|trace| - 1])
      ensures forall k :: 0 <= k < |trace| - 1 ==> Captured(trace[k]) && trace[k].checked != Some(Health.Failed)
      ensures exit == Crashed ==> retryDelay < 0 || interval < 0
    {
      ChronicleEarlier(init, h0, c0, cycles, trace);
      if exit == Crashed && trace[|trace| - 1].capture == Some(Threw) {
        ChronicleAt(init, h0, c0, cycles, trace, |trace| - 1);
      }
    }

    /**
     * The state of the loop of `run_continuous` after the passes `trace`, on
     * top of the events `e0`, the outcomes `h0`, the clock `c0` and the last
     * check `init` it started from, seen through the log `log`, the outcome
     * history `history`, the time of the last check `lastCheck`, the clock
     * `now` and the run flag `on`: the passes form a chronicle; the history is
     * `h0` and their outcomes; one clean-up per multiple of ten; and `leave`
     * says whether the loop goes on (the next pass starts now), was stopped by
     * the signal after the last scripted pass (the stop reports end the log),
     * broke on a failed check, or raised.
     */
    ghost predicate LoopAt(cycles: seq<Cycle>, init: Option<int>, h0: seq<bool>, c0: int, e0: seq<Event>,
                           trace: seq<PassLog>, leave: Option<Exit>, tail: seq<Event>, stats: Files.CaptureStats,
                           log: seq<Event>, history: seq<bool>, lastCheck: Option<int>, now: int, on: bool)
    {
      && Chronicle(init, h0, c0, cycles, trace)
      && log == e0 + tail
      && history == h0 + Outcomes(trace)
      && lastCheck == LastCheck(init, trace)
      && Tally(tail, KCleanedUp) == CleanupsDue(|h0|, |Outcomes(trace)|)
      && (on <==> leave != Some(Signalled))
      && Tally(tail, KStopped) == (if on then 0 else 1)
      && (leave == None ==>
            |trace| < |cycles| && now == NextStart(c0, trace) && (trace != [] ==> Captured(trace[|trace| - 1])))
      && (leave == Some(Signalled) ==>
            && |trace| == |cycles| && (trace != [] ==> Captured(trace[|trace| - 1]))
            && |tail| >= 3 && tail[|tail| - 3..] == StopLog(stats))
      && (leave == Some(CheckFailed) ==> trace != [] && trace[|trace| - 1].checked == Some(Health.Failed))
      && (leave == Some(Crashed) ==> trace != [] && CrashedIn(trace[|trace| - 1]))
    }

    /** `LoopAt` on the system's own state. */
    ghost predicate Looping(cycles: seq<Cycle>, init: Option<int>, h0: seq<bool>, c0: int, e0: seq<Event>,
                            trace: seq<PassLog>, leave: Option<Exit>, tail: seq<Event>, stats: Files.CaptureStats)
      reads this, health
    {
      Valid() && LoopAt(cycles, init, h0, c0, e0, trace, leave, tail, stats,
                        events, health.history, health.lastHealthCheck, clock, running)
    }

    /** Before the first pass the loop goes on from where it started, unless
        there is no scripted pass and the stop has been logged. */
    lemma LoopStart(cycles: seq<Cycle>, init: Option<int>, h0: seq<bool>, c0: int, e0: seq<Event>,
                    leave: Option<Exit>, tail: seq<Event>, stats: Files.CaptureStats,
                    log: seq<Event>, history: seq<bool>, lastCheck: Option<int>, now: int, on: bool)
      requires log == e0 + tail && history == h0 && lastCheck == init && (on <==> leave != Some(Signalled))
      requires leave == None ==> |cycles| > 0 && now == c0 && tail == []
      requires leave == Some(Signalled) ==> |cycles| == 0 && tail == StopLog(stats)
      requires leave == None || leave == Some(Signalled)
      ensures LoopAt(cycles, init, h0, c0, e0, [], leave, tail, stats, log, history, lastCheck, now, on)
    {
      assert h0 + Outcomes([]) == h0;
      if leave == Some(Signalled) {
        StopTally(stats);
      }
    }

    /** A pass that behaved as `Pass` promises, from a loop that goes on, takes
        the loop to its next state. */
    lemma LoopStep(cycles: seq<Cycle>, init: Option<int>, h0: seq<bool>, c0: int, e0: seq<Event>,
                   trace: seq<PassLog>, tail: seq<Event>, stats: Files.CaptureStats,
                   log: seq<Event>, history: seq<bool>, lastCheck: Option<int>, now: int,
                   p: PassLog, leave: Option<Exit>, delta: seq<Event>, st: Files.CaptureStats,
                   history': seq<bool>, lastCheck': Option<int>, now': int, on': bool)
      requires LoopAt(cycles, init, h0, c0, e0, trace, None, tail, stats, log, history, lastCheck, now, true)
      requires p.at == now
      requires p.checked.Some? <==> Health.DueAt(lastCheck, health.checkInterval, now)
      requires p.checked.Some? ==> p.checked.value == VerdictWith(cycles[|trace|].dev, Health.TrailingFailures(history))
      requires p.capture == None <==> p.checked == Some(Health.Failed)
      requires p.capture == Some(Threw) ==> retryDelay < 0
      requires lastCheck' == if p.checked.Some? then Some(p.at) else lastCheck
      requires history' == history + Recorded(p.capture)
      requires on' <==> leave != Some(Signalled)
      requires leave == Some(CheckFailed) <==> p.capture == None
      requires leave == None ==> |trace| + 1 < |cycles| && Captured(p) && now' == p.at + p.took + interval
      requires leave == Some(Signalled) ==>
                 |trace| + 1 == |cycles| && Captured(p) && |delta| >= 3 && delta[|delta| - 3..] == StopLog(st)
      requires leave == Some(Crashed) ==> CrashedIn(p)
      requires Tally(delta, KCleanedUp) == if Captured(p) && |history'| % 10 == 0 then 1 else 0
      requires Tally(delta, KStopped) == if on' then 0 else 1
      ensures LoopAt(cycles, init, h0, c0, e0, trace + [p], leave, tail + delta, if on' then stats else st,
                     log + delta, history', lastCheck', now', on')
    {
      ChronicleStep(init, h0, c0, cycles, trace, p);
      CleanupsStep(h0, Outcomes(trace), Recorded(p.capture), tail, delta);
      TallyAppend(tail, delta, KStopped);
      AppendAssoc(e0, tail, delta);
      if !on' {
        SuffixOfAppend(tail, delta, 3);
      }
    }

    /** Pass `i` of the loop, with the trace and the log kept in step. */
    method LoopPass(cycles: seq<Cycle>, i: nat, ghost init: Option<int>, ghost h0: seq<bool>, ghost c0: int,
                    ghost e0: seq<Event>, ghost trace: seq<PassLog>, ghost tail: seq<Event>, ghost stats: Files.CaptureStats)
      returns (leave: Option<Exit>, ghost trace': seq<PassLog>, ghost tail': seq<Event>, ghost stats': Files.CaptureStats)
      requires Looping(cycles, init, h0, c0, e0, trace, None, tail, stats) && i == |trace|
      requires AllShoot(cycles, trace)
      requires forall k :: 0 <= k < |cycles| ==> |cycles[k].attempts| >= AttemptLimit(maxRetries)
      modifies this, health, files.fs
      ensures Looping(cycles, init, h0, c0, e0, trace', leave, tail', stats') && |trace'| == i + 1
      ensures AllShoot(cycles, trace')
    {
      ghost var log, history, lastCheck, now := events, health.history, health.lastHealthCheck, clock;
      ghost var p, delta, st;
      leave, p, delta, st := Pass(cycles, i, trace);
      LoopStep(cycles, init, h0, c0, e0, trace, tail, stats, log, history, lastCheck, now,
               p, leave, delta, st, health.history, health.lastHealthCheck, clock, running);
      trace', tail', stats' := trace + [p], tail + delta, if running then stats else st;
    }

    /** The `except` and the `finally` of `run_continuous`: an exception is
        logged, then `stop` runs, which only acts when the signal has not already stopped the system. */
    method Finish(exit: Exit, ghost e0: seq<Event>, ghost tail: seq<Event>, ghost stats: Files.CaptureStats)
      returns (ghost tail': seq<Event>, ghost stats': Files.CaptureStats)
      requires events == e0 + tail && (running <==> exit != Signalled)
      requires Tally(tail, KStopped) == if running then 0 else 1
      requires !running ==> |tail| >= 3 && tail[|tail| - 3..] == StopLog(stats)
      modifies this
      ensures !running && events == e0 + tail'
      ensures Tally(tail', KCleanedUp) == Tally(tail, KCleanedUp) && Tally(tail', KStopped) == 1
      ensures |tail'| >= 3 && tail'[|tail'| - 3..] == StopLog(stats')
      ensures exit == Crashed ==> |tail'| >= 4 && tail'[|tail'| - 4] == MainLoopFailed
    {
      tail', stats' := tail, stats;
      if exit == Crashed {
        events := events + [MainLoopFailed];
        QuietAppend(tail, [MainLoopFailed]);
        AppendAssoc(e0, tail, [MainLoopFailed]);
        tail' := tail + [MainLoopFailed];
      }
      ghost var wasRunning := running;
      ghost var st := Stop();
      if wasRunning {
        StopAppend(tail', st);
        AppendAssoc(e0, tail', StopLog(st));
        tail', stats' := tail' + StopLog(st), st;
      }
    }

    /** The loop before its first pass: with no scripted pass the stop signal
        has already arrived, so the system stops and logs its reports. */
    method Begin(cycles: seq<Cycle>, ghost init: Option<int>, ghost h0: seq<bool>, ghost c0: int, ghost e0: seq<Event>)
      returns (leave: Option<Exit>, ghost tail: seq<Event>, ghost stats: Files.CaptureStats)
      requires Valid() && running && events == e0 && health.history == h0 && health.lastHealthCheck == init && clock == c0
      modifies this
      ensures Looping(cycles, init, h0, c0, e0, [], leave, tail, stats)
      ensures leave == if |cycles| == 0 then Some(Signalled) else None
    {
      leave, tail, stats := None, [], Files.CaptureStats(0, 0, None, None);
      if |cycles| == 0 {
        stats := Stop();
        tail := StopLog(stats);
        leave := Some(Signalled);
      }
      LoopStart(cycles, init, h0, c0, e0, leave, tail, stats, events, health.history, health.lastHealthCheck, clock, running);
    }

    /**
     * What the loop of `run_continuous` promises once it is over, having run
     * the passes `trace` from the last check `init`, the outcomes `h0` and the
     * clock `c0`, and logged `tail`: the passes form a chronicle, so every
     * pass but the last recorded its outcome after a check that did not fail;
     * the loop ran every scripted pass when the signal stopped it, and its last
     * pass broke on a failed check or raised otherwise, the latter only for a
     * negative retry delay or interval, with the exception logged; one clean-up
     * per multiple of ten captures; and exactly one stop, whose reports end the log.
     */
    ghost predicate LoopRan(cycles: seq<Cycle>, init: Option<int>, h0: seq<bool>, c0: int, exit: Exit,
                            trace: seq<PassLog>, tail: seq<Event>, stats: Files.CaptureStats)
    {
      && Chronicle(init, h0, c0, cycles, trace)
      && (forall k :: 0 <= k < |trace| - 1 ==> Captured(trace[k]) && trace[k].checked != Some(Health.Failed))
      && (exit == Signalled ==> |trace| == |cycles| && (trace != [] ==> Captured(trace[|trace| - 1])))
      && (exit == CheckFailed ==> trace != [] && trace[|trace| - 1].checked == Some(Health.Failed))
      && (exit == Crashed ==> trace != [] && CrashedIn(trace[|trace| - 1]) && (retryDelay < 0 || interval < 0))
      && Tally(tail, KCleanedUp) == CleanupsDue(|h0|, |Outcomes(trace)|)
      && Tally(tail, KStopped) == 1
      && |tail| >= 3 && tail[|tail| - 3..] == StopLog(stats)
      && (exit == Crashed ==> |tail| >= 4 && tail[|tail| - 4] == MainLoopFailed)
    }

    /**
     * The loop of `run_continuous` from its first pass to its `finally`: passes
     * run while the system is running; a failed periodic check breaks out; an
     * exception is caught and logged; the `finally` then stops the system,
     * which does nothing when the stop signal already did. With no scripted
     * pass the signal arrives before the first.
     */
    method CaptureLoop(cycles: seq<Cycle>)
      returns (exit: Exit, ghost trace: seq<PassLog>, ghost tail: seq<Event>, ghost stats: Files.CaptureStats)
      requires Valid() && running
      requires forall k :: 0 <= k < |cycles| ==> |cycles[k].attempts| >= AttemptLimit(maxRetries)
      modifies this, health, files.fs
      ensures Valid() && !running && events == old(events) + tail
      ensures health.history == old(health.history) + Outcomes(trace)
      ensures LoopRan(cycles, old(health.lastHealthCheck), old(health.history), old(clock), exit, trace, tail, stats)
      ensures AllShoot(cycles, trace)
    {
      ghost var init, h0, c0, e0 := health.lastHealthCheck, health.history, clock, events;
      var leave;
      leave, tail, stats := Begin(cycles, init, h0, c0, e0);
      trace := [];
      var i := 0;
      while leave == None
        invariant Looping(cycles, init, h0, c0, e0, trace, leave, tail, stats) && i == |trace|
        invariant AllShoot(cycles, trace)
        decreases |cycles| - i
      {
        leave, trace, tail, stats := LoopPass(cycles, i, init, h0, c0, e0, trace, tail, stats);
        i := i + 1;
      }
      exit := leave.value;
      LoopExit(init, h0, c0, cycles, trace, exit);
      tail, stats := Finish(exit, e0, tail, stats);
    }

    /**
     * `run_continuous`: the start line and the initial health check; when that
     * check fails the method returns at once, before the `try`, so the run flag
     * stays set and no stop happens. Otherwise the warm-up and the loop, whose
     * first pass sees the initial check's time as the last check.
     */
    method RunContinuous(dev0: Camera.DeviceTable, cycles: seq<Cycle>)
      returns (ghost exit: Exit, ghost trace: seq<PassLog>, ghost tail: seq<Event>, ghost stats: Files.CaptureStats)
      requires Valid()
      requires forall k :: 0 <= k < |cycles| ==> |cycles[k].attempts| >= AttemptLimit(maxRetries)
      modifies this, health, files.fs
      ensures Valid()
      ensures old(Verdict(dev0)) == Health.Failed ==>
                && running && trace == []
                && events == old(events) + [SystemStarted] + CheckLog(dev0, Health.Failed, true)
                && health.history == old(health.history) && files.fs.entries == old(files.fs.entries)
      ensures old(Verdict(dev0)) != Health.Failed ==>
                && !running
                && events == old(events) + [SystemStarted] + CheckLog(dev0, old(Verdict(dev0)), true)
                            + WarmUpEvents(camera) + tail
                && health.history == old(health.history) + Outcomes(trace)
                && LoopRan(cycles, Some(old(clock)), old(health.history), old(clock) + WarmUpPause(camera),
                           exit, trace, tail, stats)
                && AllShoot(cycles, trace)
    {
      running := true;
      events := events + [SystemStarted];
      var status := Check(dev0, true);
      stats := Files.CaptureStats(0, 0, None, None);
      if status == Health.Failed {
        return CheckFailed, [], [], stats;
      }
      WarmUp();
      exit, trace, tail, stats := CaptureLoop(cycles);
    }

    /** The metrics line `run_single_capture` prints once its capture returned. */
    function MetricsLine(result: Completion<bool>): seq<Event>
    {
      if result.Returned? then [MetricsPrinted] else []
    }

    /** The rest of `run_single_capture` once the check passed: the warm-up, the
        capture and, when the capture returned, the metrics. The capture starts from `r`. */
    method WarmCapture(stamp: string, attempts: seq<Camera.Attempt>, ghost r: Retry)
      returns (result: Completion<bool>, ghost used: nat, ghost log: seq<Event>)
      requires Valid() && |attempts| >= AttemptLimit(maxRetries)
      requires r == Retry(camera, files.GenerateFilename(stamp), files.fs.entries, clock + WarmUpPause(camera),
                          retryDelay, maxRetries, attempts)
      modifies this, health, files.fs
      ensures Valid() && running == old(running)
      ensures health.history == old(health.history) + Recorded(Some(result))
      ensures events == old(events) + WarmUpEvents(camera) + log + MetricsLine(result)
      ensures RetryEnded(r, LogFor(r.path), used, result, files.fs.entries, log, clock - r.t0)
    {
      WarmUp();
      ghost var warmed := events;
      result, used, log := CaptureWithRetry(stamp, attempts, r);
      if result.Returned? {
        events := events + [MetricsPrinted];
      }
      assert events == warmed + log + MetricsLine(result);
    }

    /**
     * `run_single_capture`: the logged health check (a failed one aborts with
     * `false`), the warm-up, one `capture_with_retry` and the metrics. The
     * capture starts from `r`: the files as they were and the clock after the
     * warm-up. An exception from the capture propagates out, and the metrics are not printed.
     */
    method RunSingleCapture(dev: Camera.DeviceTable, stamp: string, attempts: seq<Camera.Attempt>)
      returns (result: Completion<bool>, ghost status: Health.Status, ghost used: nat, ghost log: seq<Event>, ghost r: Retry)
      requires Valid() && |attempts| >= AttemptLimit(maxRetries)
      modifies this, health, files.fs
      ensures Valid() && running == old(running)
      ensures status == old(Verdict(dev))
      ensures r == Retry(camera, files.GenerateFilename(stamp), old(files.fs.entries), old(clock) + WarmUpPause(camera),
                         retryDelay, maxRetries, attempts)
      ensures status == Health.Failed ==>
                && result == Returned(false) && events == old(events) + CheckLog(dev, Health.Failed, true)
                && health.history == old(health.history) && files.fs.entries == old(files.fs.entries)
      ensures status != Health.Failed ==>
                && health.history == old(health.history) + Recorded(Some(result))
                && events == old(events) + CheckLog(dev, status, true) + WarmUpEvents(camera) + log + MetricsLine(result)
      // Compared with `true` so that the retry's ending is checked as one fact, not clause by clause.
      ensures status != Health.Failed ==> RetryEnded(r, LogFor(r.path), used, result, files.fs.entries, log, clock - r.t0) == true
    {
      r := Retry(camera, files.GenerateFilename(stamp), files.fs.entries, clock + WarmUpPause(camera),
                 retryDelay, maxRetries, attempts);
      var checked := Check(dev, true);
      status := checked;
      if checked != Health.Failed {
        result, used, log := WarmCapture(stamp, attempts, r);
      } else {
        result, used, log := Returned(false), 0, [];
      }
    }

    /**
     * `validate_system`: device presence, then permissions, then the device
     * listing and a test capture; a failing step answers `false` and skips the
     * rest. A test capture that raises propagates out.
     */
    method ValidateSystem(dev: Camera.DeviceTable, attempt: Camera.Attempt)
      returns (r: Completion<bool>, ghost devices: seq<string>)
      modifies this, files.fs
      ensures running == old(running) && clock == old(clock)
      ensures !(Camera.IsDevicePresent(camera, dev) && Camera.CheckDevicePermissions(camera, dev)) ==>
                r == Returned(false) && events == old(events) && files.fs.entries == old(files.fs.entries)
      ensures Camera.IsDevicePresent(camera, dev) && Camera.CheckDevicePermissions(camera, dev) ==>
                var captured := Camera.AfterAttempt(old(files.fs.entries), Camera.TestFile, attempt, clock);
                var good := Camera.Classify(camera, attempt.outcome).success && Files.Verified(captured, Camera.TestFile);
                && events == old(events) + [DevicesListed(devices)] && Lists(devices, dev)
                && (r == Returned(true) <==> good && Camera.TestFile !in files.fs.locked)
                && (r.Threw? <==> good && Camera.TestFile in files.fs.locked)
                && files.fs.entries == (if r == Returned(true) then captured - {Camera.TestFile} else captured)
    {
      devices := [];
      if !Camera.IsDevicePresent(camera, dev) {
        return Returned(false), devices;
      }
      if !Camera.CheckDevicePermissions(camera, dev) {
        return Returned(false), devices;
      }
      var listed := Camera.ListAvailableDevices(dev);
      devices := listed;
      events := events + [DevicesListed(listed)];
      r := Camera.TestCapture(camera, files.fs, attempt, clock);
    }
  }
}
