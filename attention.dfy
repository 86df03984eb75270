/**
 * The per-frame attention logic of app.js as pure functions: the classifier
 * on the chin/nose landmark gap, one step of the `faceMesh.onResults`
 * callback, and `logProcrastination`, all over a record of the six
 * module-level tracking variables. The class in module App runs the same
 * logic in place and is proved equal to these functions.
 */
module Attention {
  import opened Wrappers
  import opened TimeFormat

  /** DOWN_ANGLE_THRESHOLD, in normalized frame heights (app.js:11). */
  const DownAngleThreshold: real := 0.07
  /** ALERT_INTERVAL_MS, the repeat period of the alert sound (app.js:12). */
  const AlertIntervalMs: int := 2000

  /** One FaceMesh result: no face, or the y of the chin (landmark 152) and of the nose tip (landmark 1). */
  datatype Frame = NoFace | Face(chinY: real, noseY: real)

  datatype Classification = Unknown | Down | Focused

  /** The CSS class the status text is given: "status-text error|warning|active". */
  datatype StatusClass = Error | Warning | Active

  datatype Status = Status(text: string, style: StatusClass)

  /** What happens to the alert sound: nothing, play(), or rewind to 0 and play(). */
  datatype Alert = Silent | Play | Replay

  /** An element of procrastinationLog: `{ timestamp, duration }`, duration in seconds. */
  datatype Entry = Entry(timestamp: string, duration: int)

  /** The effects of one frame: the status shown, the alert, the episode logged if any. */
  datatype Output = Output(status: Status, alert: Alert, logged: Option<Entry>)

  /** The tracking variables of app.js:15-20. */
  datatype Tracking = Tracking(
    isLookingDown: bool,
    lookDownStartTime: Option<int>,
    lastAlertTime: int,
    procrastinationCount: int,
    totalProcrastinationTime: int,
    procrastinationLog: seq<Entry>)

  datatype Transition = Transition(next: Tracking, out: Output)

  /** The values the tracking variables start with. */
  const Initial: Tracking := Tracking(false, None, 0, 0, 0, [])

  const NoFaceStatus: Status := Status("No face detected", Error)
  const StartedStatus: Status := Status("PROCRASTINATING", Warning)
  const FocusedStatus: Status := Status("Focused", Active)

  function StillDownStatus(seconds: int): Status {
    Status("Procrastinating (" + IntToString(seconds) + "s)", Warning)
  }

  function Classify(f: Frame): Classification {
    match f
    case NoFace => Unknown
    case Face(chinY, noseY) => if chinY - noseY < DownAngleThreshold then Down else Focused
  }

  /** `Math.floor((now - start) / 1000)`: Dafny's `/` by a positive divisor rounds down. */
  function Elapsed(now: int, start: int): (seconds: int)
    ensures seconds * 1000 <= now - start < seconds * 1000 + 1000
  {
    (now - start) / 1000
  }

  /** `lookDownStartTime` as JavaScript arithmetic reads it: `null` counts as 0. */
  function StartOrZero(t: Tracking): int {
    t.lookDownStartTime.GetOr(0)
  }

  /** logProcrastination(duration) (app.js:91-102) without its DOM writes. */
  function Record(t: Tracking, duration: int, timestamp: string): Tracking {
    t.(procrastinationCount := t.procrastinationCount + 1,
       totalProcrastinationTime := t.totalProcrastinationTime + duration,
       procrastinationLog := [Entry(timestamp, duration)] + t.procrastinationLog)
  }

  /** The body of the faceMesh.onResults callback (app.js:35-89) for a frame seen at `now`. */
  function Step(t: Tracking, f: Frame, now: int, timestamp: string): Transition {
    match Classify(f)
    case Unknown =>
      Transition(t, Output(NoFaceStatus, Silent, None))
    case Down =>
      if !t.isLookingDown then
        Transition(t.(isLookingDown := true, lookDownStartTime := Some(now), lastAlertTime := now),
                   Output(StartedStatus, Play, None))
      else
        var status := StillDownStatus(Elapsed(now, StartOrZero(t)));
        if now - t.lastAlertTime >= AlertIntervalMs then
          Transition(t.(lastAlertTime := now), Output(status, Replay, None))
        else
          Transition(t, Output(status, Silent, None))
    case Focused =>
      if t.isLookingDown then
        var duration := Elapsed(now, StartOrZero(t));
        Transition(Record(t, duration, timestamp).(isLookingDown := false, lookDownStartTime := None),
                   Output(FocusedStatus, Silent, Some(Entry(timestamp, duration))))
      else
        Transition(t, Output(FocusedStatus, Silent, None))
  }

  /** Sum of the durations of a log. */
  function SumDurations(log: seq<Entry>): int {
    if log == [] then 0 else log[0].duration + SumDurations(log[1..])
  }

  /**
   * What holds of the tracking variables throughout a session: a start time
   * exactly while looking down, no later than the last alert; the counter and
   * the total agree with the log; every logged duration is non-negative.
   */
  ghost predicate Inv(t: Tracking) {
    && (t.isLookingDown <==> t.lookDownStartTime.Some?)
    && (t.lookDownStartTime.Some? ==> t.lookDownStartTime.value <= t.lastAlertTime)
    && t.procrastinationCount == |t.procrastinationLog|
    && t.totalProcrastinationTime == SumDurations(t.procrastinationLog)
    && forall i :: 0 <= i < |t.procrastinationLog| ==> t.procrastinationLog[i].duration >= 0
  }

  /** The clock reads no earlier than the last alert; Date.now() is assumed not to go back. */
  predicate ClockAfter(t: Tracking, f: Frame, now: int) {
    f.NoFace? || now >= t.lastAlertTime
  }

  // ----- The classifier -----

  /** A face is "down" exactly when chin.y - noseTip.y is strictly below the threshold. */
  lemma ClassifyDownIff(f: Frame)
    ensures Classify(f) == Down <==> f.Face? && f.chinY - f.noseY < DownAngleThreshold
    ensures Classify(f) == Unknown <==> f.NoFace?
    ensures f.Face? && f.chinY - f.noseY == DownAngleThreshold ==> Classify(f) == Focused
  {
  }

  /** A clock that has not gone back gives a non-negative number of whole seconds. */
  lemma ElapsedIsFloor(now: int, start: int)
    ensures now >= start ==> Elapsed(now, start) >= 0
  {
  }

  // ----- logProcrastination -----

  lemma RecordEpisode(t: Tracking, duration: int, timestamp: string)
    ensures var r := Record(t, duration, timestamp);
      && r.procrastinationCount == t.procrastinationCount + 1
      && r.totalProcrastinationTime == t.totalProcrastinationTime + duration
      && |r.procrastinationLog| == |t.procrastinationLog| + 1
      && r.procrastinationLog[0] == Entry(timestamp, duration)
      && r.procrastinationLog[1..] == t.procrastinationLog
      && r.isLookingDown == t.isLookingDown
      && r.lookDownStartTime == t.lookDownStartTime
      && r.lastAlertTime == t.lastAlertTime
  {
  }

  lemma RecordKeepsInv(t: Tracking, duration: int, timestamp: string)
    requires Inv(t) && duration >= 0
    ensures Inv(Record(t, duration, timestamp))
  {
    var r := Record(t, duration, timestamp);
    assert r.procrastinationLog[1..] == t.procrastinationLog;
  }

  // ----- The four cases of one frame -----

  /** A frame without a face changes no variable and shows "No face detected" in error style. */
  lemma NoFaceChangesNothing(t: Tracking, now: int, timestamp: string)
    ensures Step(t, NoFace, now, timestamp).next == t
    ensures Step(t, NoFace, now, timestamp).out == Output(Status("No face detected", Error), Silent, None)
  {
  }

  /** Focused, then a down frame: start an episode now, alert once, show "PROCRASTINATING". */
  lemma StartsLookingDown(t: Tracking, f: Frame, now: int, timestamp: string)
    requires Classify(f) == Down && !t.isLookingDown
    ensures var r := Step(t, f, now, timestamp);
      && r.next == t.(isLookingDown := true, lookDownStartTime := Some(now), lastAlertTime := now)
      && r.out == Output(Status("PROCRASTINATING", Warning), Play, None)
  {
  }

  /**
   * Looking down, then a down frame: the episode goes on, the status shows the
   * whole seconds since it began, and the alert is replayed and its time
   * updated exactly when ALERT_INTERVAL_MS has passed since the last one.
   */
  lemma StaysLookingDown(t: Tracking, f: Frame, now: int, timestamp: string)
    requires Classify(f) == Down && t.isLookingDown && t.lookDownStartTime.Some?
    ensures var r := Step(t, f, now, timestamp);
      var due := now - t.lastAlertTime >= AlertIntervalMs;
      && r.next.isLookingDown
      && r.next.lookDownStartTime == t.lookDownStartTime
      && r.next.lastAlertTime == (if due then now else t.lastAlertTime)
      && r.next == t.(lastAlertTime := r.next.lastAlertTime)
      && r.out.status == Status("Procrastinating (" + IntToString((now - t.lookDownStartTime.value) / 1000) + "s)", Warning)
      && (r.out.alert == Replay <==> due)
      && (r.out.alert == Silent <==> !due)
      && r.out.logged == None
  {
  }

  /**
   * Looking down, then a focused frame: exactly one episode is logged, lasting
   * the whole seconds since the episode began, and the tracker is Focused again.
   */
  lemma StopsLookingDown(t: Tracking, f: Frame, now: int, timestamp: string)
    requires Classify(f) == Focused && t.isLookingDown && t.lookDownStartTime.Some?
    ensures var r := Step(t, f, now, timestamp);
      var duration := (now - t.lookDownStartTime.value) / 1000;
      && r.next == Record(t, duration, timestamp).(isLookingDown := false, lookDownStartTime := None)
      && r.next.procrastinationLog == [Entry(timestamp, duration)] + t.procrastinationLog
      && r.next.lastAlertTime == t.lastAlertTime
      && r.out == Output(Status("Focused", Active), Silent, Some(Entry(timestamp, duration)))
  {
  }

  /** Focused, then a focused frame: nothing changes; the status reads "Focused". */
  lemma StaysFocused(t: Tracking, f: Frame, now: int, timestamp: string)
    requires Classify(f) == Focused && !t.isLookingDown
    ensures Step(t, f, now, timestamp) == Transition(t, Output(Status("Focused", Active), Silent, None))
  {
  }

  /** Only a transition into LookingDown plays the alert from the start; a replay is always ALERT_INTERVAL_MS after the last alert. */
  lemma AlertTiming(t: Tracking, f: Frame, now: int, timestamp: string)
    ensures var r := Step(t, f, now, timestamp);
      && (r.out.alert == Play <==> Classify(f) == Down && !t.isLookingDown)
      && (r.out.alert == Replay ==> now - t.lastAlertTime >= AlertIntervalMs)
      && (r.out.alert != Silent ==> r.next.lastAlertTime == now)
      && (r.out.alert == Silent ==> r.next.lastAlertTime == t.lastAlertTime)
  {
  }

  /** The statistics change only when an episode is logged, and then by exactly that episode. */
  lemma StepStatistics(t: Tracking, f: Frame, now: int, timestamp: string)
    ensures var r := Step(t, f, now, timestamp);
      match r.out.logged
      case None =>
        && r.next.procrastinationCount == t.procrastinationCount
        && r.next.totalProcrastinationTime == t.totalProcrastinationTime
        && r.next.procrastinationLog == t.procrastinationLog
      case Some(e) =>
        && r.next.procrastinationCount == t.procrastinationCount + 1
        && r.next.totalProcrastinationTime == t.totalProcrastinationTime + e.duration
        && r.next.procrastinationLog == [e] + t.procrastinationLog
  {
  }

  lemma InitialInv()
    ensures Inv(Initial)
  {
  }

  /** One frame keeps the session invariant when the clock has not gone back. */
  lemma StepKeepsInv(t: Tracking, f: Frame, now: int, timestamp: string)
    requires Inv(t) && ClockAfter(t, f, now)
    ensures Inv(Step(t, f, now, timestamp).next)
    ensures Step(t, f, now, timestamp).out.logged.Some? ==> Step(t, f, now, timestamp).out.logged.value.duration >= 0
  {
    if Classify(f) == Focused && t.isLookingDown {
      var duration := Elapsed(now, StartOrZero(t));
      assert duration >= 0;
      RecordKeepsInv(t, duration, timestamp);
    }
  }
}
