// The health monitor: capture counters, the consecutive-failure run, the
// three-way camera status and the polling gate for periodic checks. Clock
// readings are integer seconds passed in as `now`; the device probes come
// from a `Camera.DeviceTable`.

module Health {
  import opened Common
  import Camera

  datatype Status = Healthy | Degraded | Failed

  /** The details dictionary that accompanies a status. */
  datatype Details =
    | DeviceNotFound(device: string)
    | InsufficientPermissions(device: string)
    | TooManyFailures(consecutive: nat, maxAllowed: int)
    | RecentFailures(consecutive: nat, threshold: int)
    | NoDetails

  /** How many attempts in `h` have outcome `b`. */
  function Count(h: seq<bool>, b: bool): (n: nat)
    ensures n <= |h|
  {
    if h == [] then 0 else Count(h[..|h| - 1], b) + if h[|h| - 1] == b then 1 else 0
  }

  /** Some attempt has outcome `b` exactly when the count of `b` is positive. */
  lemma {:induction false} CountPositive(h: seq<bool>, b: bool)
    ensures Count(h, b) > 0 <==> b in h
    decreases |h|
  {
    if h != [] {
      var init := h[..|h| - 1];
      CountPositive(init, b);
      assert h == init + [h[|h| - 1]];
    }
  }

  /** Every attempt is either a success or a failure. */
  lemma {:induction false} CountSplit(h: seq<bool>)
    ensures Count(h, true) + Count(h, false) == |h|
    decreases |h|
  {
    if h != [] {
      CountSplit(h[..|h| - 1]);
    }
  }

  /** The length of the run of failures at the end of the attempt history. */
  function TrailingFailures(h: seq<bool>): (t: nat)
    ensures t <= |h|
  {
    if h == [] || h[|h| - 1] then 0 else TrailingFailures(h[..|h| - 1]) + 1
  }

  /** The run is made of failures only, and a success (or the start) precedes it. */
  lemma {:induction false} TrailingFailuresRun(h: seq<bool>)
    ensures var t := TrailingFailures(h);
            && (forall k :: |h| - t <= k < |h| ==> !h[k])
            && (t < |h| ==> h[|h| - t - 1])
    decreases |h|
  {
    if h != [] && !h[|h| - 1] {
      var init := h[..|h| - 1];
      TrailingFailuresRun(init);
      assert forall k :: 0 <= k < |init| ==> init[k] == h[k];
    }
  }

  /** A success wipes out the failure run before it. */
  lemma {:induction false} SuccessResetsRun(h: seq<bool>, rest: seq<bool>)
    ensures TrailingFailures(h + [true] + rest) == TrailingFailures(rest)
    decreases |rest|
  {
    var s := h + [true] + rest;
    if rest == [] {
      assert s[|s| - 1];
    } else if rest[|rest| - 1] {
      assert s[|s| - 1];
    } else {
      assert s[..|s| - 1] == h + [true] + rest[..|rest| - 1];
      SuccessResetsRun(h, rest[..|rest| - 1]);
    }
  }

  /** When the last `n` attempts all failed, the run is at least `n` long. */
  lemma FailedWindowReachesRun(h: seq<bool>, n: nat)
    requires n <= |h|
    requires forall k :: |h| - n <= k < |h| ==> !h[k]
    ensures TrailingFailures(h) >= n
    decreases n
  {
    if n > 0 {
      var init := h[..|h| - 1];
      assert !h[|h| - 1];
      assert forall k :: |init| - (n - 1) <= k < |init| ==> init[k] == h[k];
      FailedWindowReachesRun(init, n - 1);
    }
  }

  /** Recording one more attempt: how the counts and the failure run move. */
  lemma RecordOne(h: seq<bool>, b: bool, h': seq<bool>)
    requires h' == h + [b]
    ensures Count(h', true) == Count(h, true) + if b then 1 else 0
    ensures Count(h', false) == Count(h, false) + if b then 0 else 1
    ensures TrailingFailures(h') == if b then 0 else TrailingFailures(h) + 1
  {
    assert h'[..|h|] == h;
  }

  /** The decision of `check_camera_health`, first match wins. */
  function Assess(present: bool, readable: bool, consecutive: nat, maxFailures: int, device: string)
    : (r: (Status, Details))
    ensures !present ==> r == (Failed, DeviceNotFound(device))
    ensures present && !readable ==> r == (Failed, InsufficientPermissions(device))
    ensures present && readable ==>
              && (r.0 == Failed <==> consecutive >= maxFailures)
              && (r.0 == Degraded <==> 0 < consecutive < maxFailures)
              && (r.0 == Healthy <==> consecutive == 0 < maxFailures)
              && (r.0 == Failed ==> r.1 == TooManyFailures(consecutive, maxFailures))
              && (r.0 == Degraded ==> r.1 == RecentFailures(consecutive, maxFailures))
              && (r.0 == Healthy ==> r.1 == NoDetails)
  {
    if !present then (Failed, DeviceNotFound(device))
    else if !readable then (Failed, InsufficientPermissions(device))
    else if consecutive >= maxFailures then (Failed, TooManyFailures(consecutive, maxFailures))
    else if consecutive > 0 then (Degraded, RecentFailures(consecutive, maxFailures))
    else (Healthy, NoDetails)
  }

  /** The polling gate: a check is due at `now` when none has run yet, or when
      the last one, at `last`, is at least `checkInterval` seconds old. */
  predicate DueAt(last: Option<int>, checkInterval: int, now: int)
  {
    match last
    case None => true
    case Some(t) => now - t >= checkInterval
  }

  class HealthCheck {
    const checkInterval: int
    const maxFailures: int
    const alertOnDisconnect: bool
    const camera: Camera.Settings

    var totalCaptures: nat
    var successfulCaptures: nat
    var failedCaptures: nat
    var consecutiveFailures: nat
    var lastSuccessTime: Option<int>
    var lastFailureTime: Option<int>
    var startTime: int
    var cameraDisconnects: nat
    var lastHealthCheck: Option<int>

    /** Every attempt recorded since the counters were last zeroed, oldest first. */
    ghost var history: seq<bool>

    ghost predicate Valid()
      reads this
    {
      && totalCaptures == successfulCaptures + failedCaptures == |history|
      && successfulCaptures == Count(history, true)
      && failedCaptures == Count(history, false)
      && consecutiveFailures == TrailingFailures(history)
      && (lastSuccessTime.Some? <==> Count(history, true) > 0)
      && (lastFailureTime.Some? <==> Count(history, false) > 0)
    }

    constructor (checkInterval: int, maxFailures: int, alertOnDisconnect: bool, camera: Camera.Settings, now: int)
      ensures Valid() && history == []
      ensures this.checkInterval == checkInterval && this.maxFailures == maxFailures
      ensures this.alertOnDisconnect == alertOnDisconnect && this.camera == camera
      ensures totalCaptures == 0 && consecutiveFailures == 0 && cameraDisconnects == 0
      ensures lastSuccessTime == None && lastFailureTime == None && lastHealthCheck == None
      ensures startTime == now
    {
      this.checkInterval := checkInterval;
      this.maxFailures := maxFailures;
      this.alertOnDisconnect := alertOnDisconnect;
      this.camera := camera;
      totalCaptures, successfulCaptures, failedCaptures, consecutiveFailures := 0, 0, 0, 0;
      lastSuccessTime, lastFailureTime := None, None;
      startTime := now;
      cameraDisconnects := 0;
      lastHealthCheck := None;
      history := [];
    }

    /** `record_capture_attempt`. */
    method RecordCaptureAttempt(success: bool, now: int)
      requires Valid()
      modifies this
      ensures Valid() && history == old(history) + [success]
      ensures totalCaptures == old(totalCaptures) + 1
      ensures success ==> successfulCaptures == old(successfulCaptures) + 1 && failedCaptures == old(failedCaptures)
      ensures !success ==> failedCaptures == old(failedCaptures) + 1 && successfulCaptures == old(successfulCaptures)
      ensures consecutiveFailures == if success then 0 else old(consecutiveFailures) + 1
      ensures lastSuccessTime == if success then Some(now) else old(lastSuccessTime)
      ensures lastFailureTime == if success then old(lastFailureTime) else Some(now)
      ensures startTime == old(startTime) && cameraDisconnects == old(cameraDisconnects)
      ensures lastHealthCheck == old(lastHealthCheck)
    {
      RecordOne(history, success, history + [success]);
      totalCaptures := totalCaptures + 1;
      history := history + [success];
      if success {
        successfulCaptures := successfulCaptures + 1;
        consecutiveFailures := 0;
        lastSuccessTime := Some(now);
      } else {
        failedCaptures := failedCaptures + 1;
        consecutiveFailures := consecutiveFailures + 1;
        lastFailureTime := Some(now);
      }
    }

    /** `check_camera_health`; `alerted` says the disconnect alert was logged. */
    method CheckCameraHealth(now: int, dev: Camera.DeviceTable) returns (status: Status, details: Details, alerted: bool)
      requires Valid()
      modifies this
      ensures Valid() && history == old(history)
      ensures (status, details) == Assess(Camera.IsDevicePresent(camera, dev), Camera.CheckDevicePermissions(camera, dev),
                                          consecutiveFailures, maxFailures, camera.device)
      ensures lastHealthCheck == Some(now)
      ensures cameraDisconnects == old(cameraDisconnects) + if Camera.IsDevicePresent(camera, dev) then 0 else 1
      ensures alerted <==> !Camera.IsDevicePresent(camera, dev) && alertOnDisconnect
      ensures totalCaptures == old(totalCaptures) && successfulCaptures == old(successfulCaptures)
      ensures failedCaptures == old(failedCaptures) && consecutiveFailures == old(consecutiveFailures)
      ensures lastSuccessTime == old(lastSuccessTime) && lastFailureTime == old(lastFailureTime)
      ensures startTime == old(startTime)
    {
      lastHealthCheck := Some(now);
      alerted := false;
      if !Camera.IsDevicePresent(camera, dev) {
        cameraDisconnects := cameraDisconnects + 1;
        alerted := alertOnDisconnect;
        return Failed, DeviceNotFound(camera.device), alerted;
      }
      if !Camera.CheckDevicePermissions(camera, dev) {
        return Failed, InsufficientPermissions(camera.device), alerted;
      }
      if consecutiveFailures >= maxFailures {
        return Failed, TooManyFailures(consecutiveFailures, maxFailures), alerted;
      }
      if consecutiveFailures > 0 {
        return Degraded, RecentFailures(consecutiveFailures, maxFailures), alerted;
      }
      return Healthy, NoDetails, alerted;
    }

    /** `should_run_health_check`: due when no check has run yet, or when the last
        one is at least `checkInterval` seconds old. */
    function ShouldRunHealthCheck(now: int): (due: bool)
      reads this
      ensures lastHealthCheck == None ==> due
      ensures lastHealthCheck.Some? ==> (due <==> now - lastHealthCheck.value >= checkInterval)
    {
      DueAt(lastHealthCheck, checkInterval, now)
    }

    /** `reset_metrics`. */
    method ResetMetrics(now: int)
      requires Valid()
      modifies this
      ensures Valid() && history == []
      ensures totalCaptures == 0 && successfulCaptures == 0 && failedCaptures == 0 && consecutiveFailures == 0
      ensures lastSuccessTime == None && lastFailureTime == None && lastHealthCheck == None
      ensures cameraDisconnects == 0 && startTime == now
      ensures forall t :: ShouldRunHealthCheck(t)
    {
      totalCaptures, successfulCaptures, failedCaptures, consecutiveFailures := 0, 0, 0, 0;
      lastSuccessTime, lastFailureTime := None, None;
      startTime := now;
      cameraDisconnects := 0;
      lastHealthCheck := None;
      history := [];
    }

    /** `is_system_healthy`: runs a full check and accepts healthy or degraded. */
    method IsSystemHealthy(now: int, dev: Camera.DeviceTable) returns (healthy: bool)
      requires Valid()
      modifies this
      ensures Valid() && history == old(history)
      ensures healthy <==> Camera.IsDevicePresent(camera, dev) && Camera.CheckDevicePermissions(camera, dev)
                           && consecutiveFailures < maxFailures
      ensures lastHealthCheck == Some(now)
      ensures cameraDisconnects == old(cameraDisconnects) + if Camera.IsDevicePresent(camera, dev) then 0 else 1
      ensures totalCaptures == old(totalCaptures) && consecutiveFailures == old(consecutiveFailures)
    {
      var status, _, _ := CheckCameraHealth(now, dev);
      healthy := status == Healthy || status == Degraded;
    }
  }

  /** Right after a check at `now`, the next one is due exactly `checkInterval` seconds later. */
  lemma GateAfterCheck(h: HealthCheck, now: int, later: int)
    requires h.lastHealthCheck == Some(now)
    ensures h.ShouldRunHealthCheck(later) <==> later >= now + h.checkInterval
  {
  }
}
