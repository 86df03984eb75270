/**
 * A monitoring session: the results callback applied to a sequence of frames
 * in the order FaceMesh delivers them, each with the clock reading and the
 * locale time string it would see. Proves the session invariants and the
 * statistics in terms of the episodes the frames log, and works through three
 * timelines: one 3 s episode, three alerts in 5 s, and a face-less frame
 * inside an episode.
 */
module Session {
  import opened Wrappers
  import opened TimeFormat
  import opened Attention

  datatype Tick = Tick(frame: Frame, now: int, timestamp: string)

  datatype Trace = Trace(final: Tracking, outputs: seq<Output>)

  /** The callback run on every tick in turn, starting from `t`. */
  function Run(t: Tracking, ticks: seq<Tick>): (r: Trace)
    ensures |r.outputs| == |ticks|
    decreases |ticks|
  {
    if ticks == [] then Trace(t, [])
    else
      var step := Step(t, ticks[0].frame, ticks[0].now, ticks[0].timestamp);
      var rest := Run(step.next, ticks[1..]);
      Trace(rest.final, [step.out] + rest.outputs)
  }

  /** The episodes logged by a sequence of outputs, oldest first. */
  function Logged(outs: seq<Output>): seq<Entry> {
    if outs == [] then []
    else (if outs[0].logged.Some? then [outs[0].logged.value] else []) + Logged(outs[1..])
  }

  function Reverse<T>(s: seq<T>): seq<T> {
    if s == [] then [] else Reverse(s[1..]) + [s[0]]
  }

  /** The number of outputs that sound the alert, from the start or replayed. */
  function AlertCount(outs: seq<Output>): nat {
    if outs == [] then 0 else (if outs[0].alert != Silent then 1 else 0) + AlertCount(outs[1..])
  }

  /** Date.now() never goes back, and starts no earlier than the last alert. */
  predicate Monotone(t: Tracking, ticks: seq<Tick>) {
    && (forall i :: 0 <= i < |ticks| ==> t.lastAlertTime <= ticks[i].now)
    && (forall i, j :: 0 <= i < j < |ticks| ==> ticks[i].now <= ticks[j].now)
  }

  lemma {:induction false} SumDurationsAppend(a: seq<Entry>, b: seq<Entry>)
    ensures SumDurations(a + b) == SumDurations(a) + SumDurations(b)
    decreases |a|
  {
    if a != [] {
      assert (a + b)[0] == a[0];
      assert (a + b)[1..] == a[1..] + b;
      SumDurationsAppend(a[1..], b);
    } else {
      assert a + b == b;
    }
  }

  lemma {:induction false} SumDurationsReverse(s: seq<Entry>)
    ensures SumDurations(Reverse(s)) == SumDurations(s)
    decreases |s|
  {
    if s != [] {
      SumDurationsReverse(s[1..]);
      SumDurationsAppend(Reverse(s[1..]), [s[0]]);
    }
  }

  /** The episodes a run logs: those of its first frame, then those of the rest. */
  lemma LoggedRun(t: Tracking, ticks: seq<Tick>)
    requires ticks != []
    ensures var step := Step(t, ticks[0].frame, ticks[0].now, ticks[0].timestamp);
      Logged(Run(t, ticks).outputs)
        == (if step.out.logged.Some? then [step.out.logged.value] else [])
           + Logged(Run(step.next, ticks[1..]).outputs)
  {
    var step := Step(t, ticks[0].frame, ticks[0].now, ticks[0].timestamp);
    var r, rest := Run(t, ticks), Run(step.next, ticks[1..]);
    assert r.outputs[1..] == rest.outputs;
  }

  /** Putting one episode in front of later ones: it ends up last in the reversed log, and sums add up. */
  lemma ReversePrepend(e: Entry, later: seq<Entry>, log: seq<Entry>)
    ensures Reverse([e] + later) + log == Reverse(later) + ([e] + log)
    ensures SumDurations([e] + later) == e.duration + SumDurations(later)
  {
    assert ([e] + later)[1..] == later;
  }

  /**
   * Over any sequence of frames, the log gains exactly the episodes the frames
   * logged, newest at the head, and the counter and the total grow by their
   * number and their summed durations.
   */
  lemma {:induction false} RunStatistics(t: Tracking, ticks: seq<Tick>)
    ensures var r := Run(t, ticks); var eps := Logged(r.outputs);
      && r.final.procrastinationLog == Reverse(eps) + t.procrastinationLog
      && r.final.procrastinationCount == t.procrastinationCount + |eps|
      && r.final.totalProcrastinationTime == t.totalProcrastinationTime + SumDurations(eps)
    decreases |ticks|
  {
    if ticks != [] {
      var step := Step(t, ticks[0].frame, ticks[0].now, ticks[0].timestamp);
      RunStatistics(step.next, ticks[1..]);
      StepStatistics(t, ticks[0].frame, ticks[0].now, ticks[0].timestamp);
      LoggedRun(t, ticks);
      var later := Logged(Run(step.next, ticks[1..]).outputs);
      if step.out.logged.Some? {
        ReversePrepend(step.out.logged.value, later, t.procrastinationLog);
      } else {
        assert [] + later == later;
      }
    }
  }

  /** Over any sequence of frames with a clock that does not go back, the session invariant is kept. */
  lemma {:induction false} RunKeepsInv(t: Tracking, ticks: seq<Tick>)
    requires Inv(t) && Monotone(t, ticks)
    ensures Inv(Run(t, ticks).final)
    decreases |ticks|
  {
    if ticks != [] {
      var tick := ticks[0];
      var step := Step(t, tick.frame, tick.now, tick.timestamp);
      StepKeepsInv(t, tick.frame, tick.now, tick.timestamp);
      AlertTiming(t, tick.frame, tick.now, tick.timestamp);
      assert step.next.lastAlertTime == t.lastAlertTime || step.next.lastAlertTime == tick.now;
      assert Monotone(step.next, ticks[1..]) by {
        forall i | 0 <= i < |ticks[1..]|
          ensures step.next.lastAlertTime <= ticks[1..][i].now
        {
          assert ticks[1..][i] == ticks[i + 1];
        }
      }
      RunKeepsInv(step.next, ticks[1..]);
    }
  }

  /**
   * A session that starts from the initial values (app.js:15-20) keeps, after
   * any sequence of frames: a start time exactly while looking down, a counter
   * equal to the length of the log, a total equal to the summed durations of
   * the log, and non-negative durations; and the log is the logged episodes,
   * newest first.
   */
  lemma SessionInvariants(ticks: seq<Tick>)
    requires Monotone(Initial, ticks)
    ensures var r := Run(Initial, ticks); var log := r.final.procrastinationLog;
      && (r.final.isLookingDown <==> r.final.lookDownStartTime.Some?)
      && r.final.procrastinationCount == |log|
      && r.final.totalProcrastinationTime == SumDurations(log)
      && (forall i :: 0 <= i < |log| ==> log[i].duration >= 0)
      && log == Reverse(Logged(r.outputs))
  {
    InitialInv();
    RunKeepsInv(Initial, ticks);
    RunStatistics(Initial, ticks);
  }

  lemma {:induction false} ReverseFirst<T>(s: seq<T>)
    requires s != []
    ensures |Reverse(s)| == |s| && Reverse(s)[0] == s[|s| - 1]
    decreases |s|
  {
    if |s| > 1 {
      ReverseFirst(s[1..]);
    } else {
      assert Reverse(s) == Reverse(s[1..]) + [s[0]];
      assert s[1..] == [];
    }
  }

  /**
   * After a session from the initial values that logged any episode, the
   * head of the log is the episode logged last, and the log holds every
   * episode logged.
   */
  lemma LatestEntryFirst(ticks: seq<Tick>)
    requires Logged(Run(Initial, ticks).outputs) != []
    ensures var eps := Logged(Run(Initial, ticks).outputs);
      var log := Run(Initial, ticks).final.procrastinationLog;
      && |log| == |eps|
      && log[0] == eps[|eps| - 1]
  {
    var eps := Logged(Run(Initial, ticks).outputs);
    RunStatistics(Initial, ticks);
    ReverseFirst(eps);
    assert Reverse(eps) + [] == Reverse(eps);
  }

  // ----- Scenarios -----

  /** Run on the frames from index k on: the first step, then the rest. */
  lemma RunSplit(t: Tracking, ticks: seq<Tick>, k: nat, r: Trace)
    requires k < |ticks| && r == Run(t, ticks[k..])
    ensures var step := Step(t, ticks[k].frame, ticks[k].now, ticks[k].timestamp);
      var rest := Run(step.next, ticks[k + 1..]);
      && r.final == rest.final
      && r.outputs[0] == step.out
      && r.outputs[1..] == rest.outputs
      && AlertCount(r.outputs) == (if step.out.alert != Silent then 1 else 0) + AlertCount(rest.outputs)
      && Logged(r.outputs) == (if step.out.logged.Some? then [step.out.logged.value] else []) + Logged(rest.outputs)
  {
    assert ticks[k..][1..] == ticks[k + 1..];
  }

  /** The live status text for one and two seconds down. */
  lemma StillDownTexts()
    ensures StillDownStatus(1) == Status("Procrastinating (1s)", Warning)
    ensures StillDownStatus(2) == Status("Procrastinating (2s)", Warning)
  {
    assert IntToString(1) == "1";
    assert IntToString(2) == "2";
  }

  /** A face whose chin sits `gap` below its nose tip. */
  function Gap(gap: real): Frame {
    Face(0.5 + gap, 0.5)
  }

  /**
   * Gaps 0.10, 0.05, 0.05, 0.05, 0.12 one second apart from any start time
   * t: looking down from t + 1s, still down at t + 2s and t + 3s, focused at
   * t + 4s, with exactly one episode of 3 seconds.
   */
  lemma OneEpisodeScenario(t: int)
    ensures var r := Run(Initial, [
        Tick(Gap(0.10), t, "0"), Tick(Gap(0.05), t + 1000, "1"), Tick(Gap(0.05), t + 2000, "2"),
        Tick(Gap(0.05), t + 3000, "3"), Tick(Gap(0.12), t + 4000, "4")]);
      && r.outputs[0].status == Status("Focused", Active)
      && r.outputs[1].status == Status("PROCRASTINATING", Warning)
      && r.outputs[2].status == Status("Procrastinating (1s)", Warning)
      && r.outputs[3].status == Status("Procrastinating (2s)", Warning)
      && r.outputs[4] == Output(Status("Focused", Active), Silent, Some(Entry("4", 3)))
      && Logged(r.outputs) == [Entry("4", 3)]
      && r.final == Tracking(false, None, t + 3000, 1, 3, [Entry("4", 3)])
  {
    var ts := [
        Tick(Gap(0.10), t, "0"), Tick(Gap(0.05), t + 1000, "1"), Tick(Gap(0.05), t + 2000, "2"),
        Tick(Gap(0.05), t + 3000, "3"), Tick(Gap(0.12), t + 4000, "4")];
    var s0 := Step(Initial, ts[0].frame, ts[0].now, ts[0].timestamp);
    var s1 := Step(s0.next, ts[1].frame, ts[1].now, ts[1].timestamp);
    var s2 := Step(s1.next, ts[2].frame, ts[2].now, ts[2].timestamp);
    var s3 := Step(s2.next, ts[3].frame, ts[3].now, ts[3].timestamp);
    var s4 := Step(s3.next, ts[4].frame, ts[4].now, ts[4].timestamp);
    assert s0.next == Initial && s0.out.logged == None;
    assert s1.next == Tracking(true, Some(t + 1000), t + 1000, 0, 0, []) && s1.out.logged == None;
    assert s2.next == s1.next && s2.out.logged == None;
    assert s2.out.status == StillDownStatus(1);
    assert s3.next == Tracking(true, Some(t + 1000), t + 3000, 0, 0, []) && s3.out.logged == None;
    assert s3.out.status == StillDownStatus(2);
    assert s4.next == Tracking(false, None, t + 3000, 1, 3, [Entry("4", 3)]);
    StillDownTexts();
    var r0, r1, r2 := Run(Initial, ts), Run(s0.next, ts[1..]), Run(s1.next, ts[2..]);
    var r3, r4 := Run(s2.next, ts[3..]), Run(s3.next, ts[4..]);
    RunSplit(Initial, ts, 0, r0);
    RunSplit(s0.next, ts, 1, r1);
    RunSplit(s1.next, ts, 2, r2);
    RunSplit(s2.next, ts, 3, r3);
    RunSplit(s3.next, ts, 4, r4);
    assert r4.final == s4.next && Logged(r4.outputs) == [Entry("4", 3)];
  }

  /** Down for 5000 ms with a frame every second: the alert sounds at 0, 2000 and 4000 ms after the start, three times. */
  lemma RepeatedAlertScenario(t: int)
    ensures var r := Run(Initial, [
        Tick(Gap(0.0), t, "0"), Tick(Gap(0.0), t + 1000, "1"), Tick(Gap(0.0), t + 2000, "2"),
        Tick(Gap(0.0), t + 3000, "3"), Tick(Gap(0.0), t + 4000, "4"), Tick(Gap(0.0), t + 5000, "5")]);
      && r.outputs[0].alert == Play && r.outputs[1].alert == Silent
      && r.outputs[2].alert == Replay && r.outputs[3].alert == Silent
      && r.outputs[4].alert == Replay && r.outputs[5].alert == Silent
      && AlertCount(r.outputs) == 3
      && r.final == Tracking(true, Some(t), t + 4000, 0, 0, [])
  {
    var ts := [
        Tick(Gap(0.0), t, "0"), Tick(Gap(0.0), t + 1000, "1"), Tick(Gap(0.0), t + 2000, "2"),
        Tick(Gap(0.0), t + 3000, "3"), Tick(Gap(0.0), t + 4000, "4"), Tick(Gap(0.0), t + 5000, "5")];
    var s0 := Step(Initial, ts[0].frame, ts[0].now, ts[0].timestamp);
    var s1 := Step(s0.next, ts[1].frame, ts[1].now, ts[1].timestamp);
    var s2 := Step(s1.next, ts[2].frame, ts[2].now, ts[2].timestamp);
    var s3 := Step(s2.next, ts[3].frame, ts[3].now, ts[3].timestamp);
    var s4 := Step(s3.next, ts[4].frame, ts[4].now, ts[4].timestamp);
    var s5 := Step(s4.next, ts[5].frame, ts[5].now, ts[5].timestamp);
    assert s0.next == Tracking(true, Some(t), t, 0, 0, []) && s0.out.alert == Play;
    assert s1.next == s0.next && s1.out.alert == Silent;
    assert s2.next == Tracking(true, Some(t), t + 2000, 0, 0, []) && s2.out.alert == Replay;
    assert s3.next == s2.next && s3.out.alert == Silent;
    assert s4.next == Tracking(true, Some(t), t + 4000, 0, 0, []) && s4.out.alert == Replay;
    assert s5.next == s4.next && s5.out.alert == Silent;
    var r0, r1, r2 := Run(Initial, ts), Run(s0.next, ts[1..]), Run(s1.next, ts[2..]);
    var r3, r4, r5 := Run(s2.next, ts[3..]), Run(s3.next, ts[4..]), Run(s4.next, ts[5..]);
    RunSplit(Initial, ts, 0, r0);
    RunSplit(s0.next, ts, 1, r1);
    RunSplit(s1.next, ts, 2, r2);
    RunSplit(s2.next, ts, 3, r3);
    RunSplit(s3.next, ts, 4, r4);
    RunSplit(s4.next, ts, 5, r5);
    assert r5.final == s5.next && AlertCount(r5.outputs) == 0;
  }

  /** One frame without a face between two down frames neither ends nor restarts the episode. */
  lemma NoFaceKeepsEpisodeScenario(start: int, gap: int)
    requires gap >= 0
    ensures var r := Run(Initial, [
        Tick(Gap(0.0), start, "a"), Tick(NoFace, start + gap, "b"), Tick(Gap(0.0), start + 2 * gap, "c")]);
      && r.final.isLookingDown
      && r.final.lookDownStartTime == Some(start)
      && Logged(r.outputs) == []
      && r.outputs[1].status == Status("No face detected", Error)
      && r.outputs[2].status == StillDownStatus(2 * gap / 1000)
  {
    var ts := [Tick(Gap(0.0), start, "a"), Tick(NoFace, start + gap, "b"), Tick(Gap(0.0), start + 2 * gap, "c")];
    var s0 := Step(Initial, ts[0].frame, ts[0].now, ts[0].timestamp);
    var s1 := Step(s0.next, ts[1].frame, ts[1].now, ts[1].timestamp);
    var s2 := Step(s1.next, ts[2].frame, ts[2].now, ts[2].timestamp);
    assert s1.next == s0.next == Tracking(true, Some(start), start, 0, 0, []);
    assert s2.next.lookDownStartTime == Some(start) && s2.out.logged == None;
    var r0, r1, r2 := Run(Initial, ts), Run(s0.next, ts[1..]), Run(s1.next, ts[2..]);
    RunSplit(Initial, ts, 0, r0);
    RunSplit(s0.next, ts, 1, r1);
    RunSplit(s1.next, ts, 2, r2);
    assert r2.final == s2.next && Logged(r2.outputs) == [];
  }
}
