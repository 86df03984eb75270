/**
 * The tracking variables of app.js (lines 15-20) as the fields of one object,
 * and the two routines that update them in place: the FaceMesh results
 * callback and logProcrastination. Each is proved to do what the functions of
 * module Attention say, and to keep the session invariant.
 */
module App {
  import opened Wrappers
  import opened Attention

  class Shield {
    var isLookingDown: bool
    var lookDownStartTime: Option<int>
    var lastAlertTime: int
    var procrastinationCount: int
    var totalProcrastinationTime: int  // in seconds
    var procrastinationLog: seq<Entry>

    /** The abstract value of the fields. */
    ghost function Snapshot(): Tracking
      reads this
    {
      Tracking(isLookingDown, lookDownStartTime, lastAlertTime,
               procrastinationCount, totalProcrastinationTime, procrastinationLog)
    }

    ghost predicate Valid()
      reads this
    {
      Inv(Snapshot())
    }

    constructor ()
      ensures Snapshot() == Initial
      ensures Valid()
    {
      isLookingDown := false;
      lookDownStartTime := None;
      lastAlertTime := 0;
      procrastinationCount := 0;
      totalProcrastinationTime := 0;
      procrastinationLog := [];
    }

    /** logProcrastination (app.js:91-102); the DOM updates are not modelled. */
    method LogProcrastination(duration: int, timestamp: string)
      modifies this
      ensures Snapshot() == Record(old(Snapshot()), duration, timestamp)
      ensures procrastinationCount == old(procrastinationCount) + 1
      ensures totalProcrastinationTime == old(totalProcrastinationTime) + duration
      ensures procrastinationLog == [Entry(timestamp, duration)] + old(procrastinationLog)
      ensures old(Valid()) && duration >= 0 ==> Valid()
    {
      procrastinationCount := procrastinationCount + 1;
      totalProcrastinationTime := totalProcrastinationTime + duration;
      procrastinationLog := [Entry(timestamp, duration)] + procrastinationLog;
      if old(Valid()) && duration >= 0 {
        RecordKeepsInv(old(Snapshot()), duration, timestamp);
      }
    }

    /**
     * The faceMesh.onResults callback (app.js:35-89) for one result `frame`,
     * with `now` the value of Date.now() and `timestamp` that of
     * toLocaleTimeString() should an episode be logged. Returns the status to
     * show, the alert to sound and the episode logged.
     */
    method OnResults(frame: Frame, now: int, timestamp: string) returns (out: Output)
      modifies this
      ensures Snapshot() == Step(old(Snapshot()), frame, now, timestamp).next
      ensures out == Step(old(Snapshot()), frame, now, timestamp).out
      ensures old(Valid()) && ClockAfter(old(Snapshot()), frame, now) ==> Valid()
    {
      if frame.NoFace? {
        out := Output(NoFaceStatus, Silent, None);
        return;
      }
      var verticalDiff := frame.chinY - frame.noseY;
      if verticalDiff < DownAngleThreshold {
        if !isLookingDown {
          isLookingDown := true;
          lookDownStartTime := Some(now);
          lastAlertTime := now;
          out := Output(StartedStatus, Play, None);
        } else {
          var duration := (now - lookDownStartTime.GetOr(0)) / 1000;
          var alert := Silent;
          if now - lastAlertTime >= AlertIntervalMs {
            alert := Replay;
            lastAlertTime := now;
          }
          out := Output(StillDownStatus(duration), alert, None);
        }
      } else {
        var logged := None;
        if isLookingDown {
          var duration := (now - lookDownStartTime.GetOr(0)) / 1000;
          LogProcrastination(duration, timestamp);
          logged := Some(Entry(timestamp, duration));
          isLookingDown := false;
          lookDownStartTime := None;
        }
        out := Output(FocusedStatus, Silent, logged);
      }
      if old(Valid()) && ClockAfter(old(Snapshot()), frame, now) {
        StepKeepsInv(old(Snapshot()), frame, now, timestamp);
      }
    }
  }
}
