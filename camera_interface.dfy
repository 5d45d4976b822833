// The camera interface: the fswebcam command line, the classification of how
// the child process ended, the enumeration of /dev/video0 … /dev/video9, the
// test capture and the warm-up guard. The child process itself, os.path.exists
// and os.access are oracles: the way the process ended and what it wrote are
// inputs (`Attempt`), and the device nodes are a `DeviceTable`.

module Camera {
  import opened Common
  import opened Strings
  import Files

  /** The camera settings read from the configuration at construction. */
  datatype Settings = Settings(
    device: string,
    resolution: string,
    warmupDelay: int,
    timeout: int,
    quality: int,
    flags: seq<string>,
    customParams: seq<string>)

  /** The device nodes under /dev: which exist, and which the process may read. */
  datatype DeviceTable = DeviceTable(present: set<string>, readable: set<string>)

  predicate IsDevicePresent(cam: Settings, dev: DeviceTable)
  {
    cam.device in dev.present
  }

  predicate CheckDevicePermissions(cam: Settings, dev: DeviceTable)
  {
    cam.device in dev.readable
  }

  /** How one run of fswebcam ended. */
  datatype ProcessOutcome =
    | Exited(code: int, stderr: string)
    | TimeoutExpired
    | ToolNotFound
    | OtherError(message: string)

  /** One capture attempt as the outside world plays it: how the process ended,
      and the size of the file it left at the output path, if it wrote one. */
  datatype Attempt = Attempt(outcome: ProcessOutcome, written: Option<nat>)

  /** The pair `(success, error_message)` that `capture_image` returns. */
  datatype CaptureReport = CaptureReport(success: bool, error: Option<string>)

  /** The argv handed to the child process, assembled piece by piece. */
  method BuildCommand(cam: Settings, outputPath: string) returns (cmd: seq<string>)
    ensures |cmd| == |cam.flags| + |cam.customParams| + 8
    ensures cmd[0] == "fswebcam" && cmd[|cmd| - 1] == outputPath
    ensures cmd[1..1 + |cam.flags|] == cam.flags
    ensures cmd[1 + |cam.flags|..7 + |cam.flags|]
            == ["-r", cam.resolution, "-d", cam.device, "--jpeg", DecimalString(cam.quality)]
    ensures cmd[7 + |cam.flags|..|cmd| - 1] == cam.customParams
  {
    cmd := ["fswebcam"];
    cmd := cmd + cam.flags;
    cmd := cmd + ["-r", cam.resolution, "-d", cam.device, "--jpeg", DecimalString(cam.quality)];
    cmd := cmd + cam.customParams;
    cmd := cmd + [outputPath];
    assert cmd[1..1 + |cam.flags|] == cam.flags;
    assert cmd[7 + |cam.flags|..|cmd| - 1] == cam.customParams;
  }

  const UnknownError := "Unknown error"
  const NotInstalled := "fswebcam not found - is it installed?"

  function TimeoutMessage(timeout: int): string
  {
    "Capture timeout after " + DecimalString(timeout) + "s"
  }

  function ExceptionMessage(message: string): string
  {
    "Capture exception: " + message
  }

  /** The error text of a process that exited with a nonzero code. */
  function ExitError(stderr: string): (e: string)
    ensures e != []
  {
    var s := Strip(stderr);
    if s == [] then UnknownError else s
  }

  /** The error of a nonzero exit is the stripped stderr, or the fallback text
      when nothing is left; either way it has no surrounding whitespace. */
  lemma ExitErrorText(stderr: string)
    ensures var e := ExitError(stderr);
            && (e == Strip(stderr) || (Strip(stderr) == [] && e == UnknownError))
            && !IsSpace(e[0]) && !IsSpace(e[|e| - 1])
  {
    StripShape(stderr);
  }

  /** The result mapping of `capture_image`. */
  function Classify(cam: Settings, outcome: ProcessOutcome): (r: CaptureReport)
    ensures r.success <==> outcome.Exited? && outcome.code == 0
    ensures r.success <==> r.error == None
    ensures !r.success ==> r.error.value != []
    ensures outcome.Exited? && outcome.code != 0 ==> r.error == Some(ExitError(outcome.stderr))
    ensures outcome.TimeoutExpired? ==> r.error == Some(TimeoutMessage(cam.timeout))
    ensures outcome.ToolNotFound? ==> r.error == Some(NotInstalled)
    ensures outcome.OtherError? ==> r.error == Some(ExceptionMessage(outcome.message))
  {
    match outcome
    case Exited(code, stderr) =>
      if code == 0 then CaptureReport(true, None) else CaptureReport(false, Some(ExitError(stderr)))
    case TimeoutExpired => CaptureReport(false, Some(TimeoutMessage(cam.timeout)))
    case ToolNotFound => CaptureReport(false, Some(NotInstalled))
    case OtherError(message) => CaptureReport(false, Some(ExceptionMessage(message)))
  }

  /** The three exception paths give messages that cannot be confused with one another. */
  lemma ExceptionMessagesDistinct(cam: Settings, message: string)
    ensures Classify(cam, TimeoutExpired).error != Classify(cam, ToolNotFound).error
    ensures Classify(cam, TimeoutExpired).error != Classify(cam, OtherError(message)).error
    ensures Classify(cam, ToolNotFound).error != Classify(cam, OtherError(message)).error
  {
    var t := TimeoutMessage(cam.timeout);
    var x := ExceptionMessage(message);
    assert t[8] == 't' && x[8] == 'e';
    assert NotInstalled[0] == 'f' && t[0] == 'C' && x[0] == 'C';
  }

  /** The file the process leaves behind, as the attempt says. */
  function AfterAttempt(entries: map<string, Files.FileInfo>, path: string, attempt: Attempt, now: int)
    : map<string, Files.FileInfo>
  {
    if attempt.written.Some? then entries[path := Files.FileInfo(attempt.written.value, now)] else entries
  }

  /**
   * `capture_image`: run the tool on the output path and classify how it ended.
   * `attempt` is what running `BuildCommand(cam, outputPath)` did: the file it
   * wrote and how the process ended.
   */
  method CaptureImage(cam: Settings, fs: Files.FileSystem, outputPath: string, attempt: Attempt, now: int)
    returns (report: CaptureReport)
    modifies fs
    ensures report == Classify(cam, attempt.outcome)
    ensures fs.entries == AfterAttempt(old(fs.entries), outputPath, attempt, now)
  {
    fs.entries := AfterAttempt(fs.entries, outputPath, attempt, now);
    report := Classify(cam, attempt.outcome);
  }

  const DeviceSlots: nat := 10

  function DevicePath(i: nat): string
  {
    "/dev/video" + DecimalString(i)
  }

  lemma DevicePathInjective(i: nat, j: nat)
    requires DevicePath(i) == DevicePath(j)
    ensures i == j
  {
    var prefix := "/dev/video";
    assert DevicePath(i)[|prefix|..] == Digits(i);
    assert DevicePath(j)[|prefix|..] == Digits(j);
    DigitsRoundTrip(i);
    DigitsRoundTrip(j);
  }

  /** The indices below `n` whose device node exists, in ascending order. */
  function PresentIndices(present: set<string>, n: nat): (idx: seq<nat>)
    ensures |idx| <= n
    ensures forall j :: 0 <= j < |idx| ==> idx[j] < n && DevicePath(idx[j]) in present
    ensures forall j, k :: 0 <= j < k < |idx| ==> idx[j] < idx[k]
    ensures forall i :: 0 <= i < n && DevicePath(i) in present ==> i in idx
  {
    if n == 0 then []
    else PresentIndices(present, n - 1) + (if DevicePath(n - 1) in present then [n - 1] else [])
  }

  /** A list naming the present slots below `n` in order names each present
      slot once and nothing else. */
  lemma PresentList(present: set<string>, n: nat, devices: seq<string>)
    requires var idx := PresentIndices(present, n);
             |devices| == |idx| && forall j :: 0 <= j < |devices| ==> devices[j] == DevicePath(idx[j])
    ensures forall j, k :: 0 <= j < k < |devices| ==> devices[j] != devices[k]
    ensures forall i :: 0 <= i < n && DevicePath(i) in present ==> DevicePath(i) in devices
    ensures forall d :: d in devices ==> d in present
  {
    var idx := PresentIndices(present, n);
    forall j, k | 0 <= j < k < |devices|
      ensures devices[j] != devices[k]
    {
      if devices[j] == devices[k] {
        DevicePathInjective(idx[j], idx[k]);
      }
    }
    forall i | 0 <= i < n && DevicePath(i) in present
      ensures DevicePath(i) in devices
    {
      var j :| 0 <= j < |idx| && idx[j] == i;
      assert devices[j] == DevicePath(i);
    }
  }

  /** `list_available_devices`: probe /dev/video0 … /dev/video9 in order. */
  method ListAvailableDevices(dev: DeviceTable) returns (devices: seq<string>)
    ensures var idx := PresentIndices(dev.present, DeviceSlots);
            |devices| == |idx| && forall j :: 0 <= j < |devices| ==> devices[j] == DevicePath(idx[j])
    ensures |devices| <= DeviceSlots
    ensures forall j, k :: 0 <= j < k < |devices| ==> devices[j] != devices[k]
    ensures forall i :: 0 <= i < DeviceSlots && DevicePath(i) in dev.present ==> DevicePath(i) in devices
    ensures forall d :: d in devices ==> d in dev.present
  {
    devices := [];
    for i := 0 to DeviceSlots
      invariant |devices| == |PresentIndices(dev.present, i)|
      invariant forall j :: 0 <= j < |devices| ==> devices[j] == DevicePath(PresentIndices(dev.present, i)[j])
    {
      var device := DevicePath(i);
      if device in dev.present {
        devices := devices + [device];
      }
    }
    PresentList(dev.present, DeviceSlots, devices);
  }


  /** `warm_up`: how long it sleeps, if at all. */
  function WarmUpSleep(cam: Settings): (pause: Option<int>)
    ensures pause.Some? <==> cam.warmupDelay > 0
    ensures pause.Some? ==> pause.value == cam.warmupDelay
  {
    if cam.warmupDelay > 0 then Some(cam.warmupDelay) else None
  }

  const TestFile := "/tmp/test_capture.jpg"

  /** `test_capture`: capture to a scratch file; it passes when the capture
      reports success and the file is there and not empty, and the file is
      then removed. A removal that raises propagates out (`Threw`). */
  method TestCapture(cam: Settings, fs: Files.FileSystem, attempt: Attempt, now: int)
    returns (r: Completion<bool>)
    modifies fs
    ensures var captured := AfterAttempt(old(fs.entries), TestFile, attempt, now);
            var good := Classify(cam, attempt.outcome).success && Files.Verified(captured, TestFile);
            && (r == Returned(true) <==> good && TestFile !in fs.locked)
            && (r.Threw? <==> good && TestFile in fs.locked)
            && fs.entries == (if r == Returned(true) then captured - {TestFile} else captured)
  {
    var report := CaptureImage(cam, fs, TestFile, attempt, now);
    if report.success && TestFile in fs.entries {
      if fs.entries[TestFile].size > 0 {
        if TestFile in fs.locked {
          return Threw;
        }
        fs.entries := fs.entries - {TestFile};
        return Returned(true);
      }
    }
    return Returned(false);
  }
}
