/** What holds over every run of the step system. */
module Safety {
  import opened Wrappers
  import opened CertificateTable
  import opened Lifecycle
  import opened Invariant

  // ----- Duplicates -----------------------------------------------------------------------------

  /**
   A stored row is delivered at most once more than its sends returned an error or its marks failed or
   were lost to the end of the process; it is marked at most once, and then it is processed.
   */
  lemma {:induction false} DuplicateBound(steps: seq<Step>, row: nat)
    ensures var s := Exec(INIT, steps);
            && CountOf(s.log, Deliveries, row)
               <= 1 + CountOf(s.log, Failures, row) + CountOf(s.log, LostMarks, row)
            && CountOf(s.log, Marks, row) <= 1
            && (CountOf(s.log, Marks, row) == 1 <==> row < |s.table| && s.table[row].processedAt.Some?)
  {
    Reachable(steps);
    var s := Exec(INIT, steps);
    assert CountOk(s.log, s.table, s.phase, row);
    if InFlight(s.phase) == Some(row) {
      assert s.table[row].processedAt.None?;
    }
  }

  /** A row is marked only after an acknowledged send of that same row. */
  lemma {:induction false} MarkedAfterAck(steps: seq<Step>, p: nat)
    requires p < |Exec(INIT, steps).log| && Exec(INIT, steps).log[p].Marked?
    ensures var log := Exec(INIT, steps).log;
            log[p].ackAt < p && log[log[p].ackAt] == AckReceived(log[p].row)
  {
    Reachable(steps);
    assert EventOk(Exec(INIT, steps).log, Exec(INIT, steps).table, p);
  }

  // ----- No early release -----------------------------------------------------------------------

  /**
   At every delivery, the delay in force when the batch read its rows was over for the row already at
   that moment, or the row had been overridden before it.
   */
  lemma {:induction false} NoEarlyRelease(steps: seq<Step>, p: nat)
    requires p < |Exec(INIT, steps).log| && Exec(INIT, steps).log[p].Delivered?
    ensures var s := Exec(INIT, steps);
            var d := s.log[p];
            && d.snapAt < p && s.log[d.snapAt].Snapped? && d.row in s.log[d.snapAt].rows && d.row < |s.table|
            && (s.table[d.row].receivedAt + DelayIn(s.log[..d.snapAt]) * 1_000_000_000 <= s.log[d.snapAt].at <= d.at
                || OverriddenIn(s.log[..d.snapAt], d.row))
  {
    Reachable(steps);
    var s := Exec(INIT, steps);
    var d := s.log[p];
    assert EventOk(s.log, s.table, p);
    assert EventOk(s.log, s.table, d.snapAt);
    var k :| 0 <= k < |s.log[d.snapAt].rows| && s.log[d.snapAt].rows[k] == d.row;
  }

  predicate KeepsDelay(steps: seq<Step>, delaySeconds: int) {
    forall k :: 0 <= k < |steps| && steps[k].Boot? ==> steps[k].delaySeconds == delaySeconds
  }

  /** Rows are never removed and only their time stamps are ever written, in any run from any state. */
  lemma {:induction false} RowsAreKept(s: State, steps: seq<Step>)
    ensures Grown(s.table, Exec(s, steps).table)
  {
    if |steps| > 0 {
      RowsAreKept(s, steps[..|steps| - 1]);
      StepGrows(Exec(s, steps[..|steps| - 1]), steps[|steps| - 1]);
    }
  }

  lemma ScheduleGrows(s: State, step: Step)
    ensures Grown(s.table, Schedule(s, step).table)
    ensures Schedule(s, step).now == s.now && Schedule(s, step).delaySeconds == s.delaySeconds
  {
    if step.Mark? && s.phase.Acked? && s.phase.i < |s.phase.batch.rows| {
      MarkGrows(s.table, s.phase.batch.rows[s.phase.i], s.now);
    }
  }

  lemma MarkGrows(table: Table, row: nat, now: int)
    ensures Grown(table, MarkProcessed(table, row, now))
  {
  }

  lemma ServeGrows(s: State, step: Step)
    ensures Grown(s.table, Serve(s, step).table)
    ensures Serve(s, step).now == s.now && Serve(s, step).delaySeconds == s.delaySeconds
  {
  }

  lemma StepGrows(s: State, step: Step)
    ensures Grown(s.table, Do(s, step).table)
    ensures Do(s, step).now >= s.now
    ensures Do(s, step).delaySeconds == s.delaySeconds || step == Boot(Do(s, step).delaySeconds)
  {
    ScheduleGrows(s, step);
    ServeGrows(s, step);
  }

  /** While the delay stays the same, over restarts too, a ready row stays ready until it is processed. */
  lemma {:induction false} ReadyUntilProcessed(s: State, steps: seq<Step>, row: nat)
    requires row < |s.table| && Ready(s.table[row], s.now, s.delaySeconds)
    requires KeepsDelay(steps, s.delaySeconds)
    ensures var s' := Exec(s, steps);
            && s'.now >= s.now && s'.delaySeconds == s.delaySeconds && row < |s'.table|
            && (Ready(s'.table[row], s'.now, s'.delaySeconds) <==> s'.table[row].processedAt.None?)
  {
    RowsAreKept(s, steps);
    if |steps| > 0 {
      var front := steps[..|steps| - 1];
      assert KeepsDelay(front, s.delaySeconds);
      ReadyUntilProcessed(s, front, row);
      StepGrows(Exec(s, front), steps[|steps| - 1]);
    }
  }

  // ----- Kill switch ----------------------------------------------------------------------------

  /** No entry of `log[from..to]` turns the flag on. */
  predicate NoRestart(log: Log, from: nat, to: nat) {
    forall m :: from <= m < to && m < |log| ==> log[m] != FlagSet(true)
  }

  lemma {:induction false} FlagStaysOff(log: Log, k: nat, f: nat)
    requires k < f <= |log| && log[k] == FlagSet(false) && NoRestart(log, k, f)
    ensures !FlagIn(log[..f])
    decreases f
  {
    assert log[..f][..f - 1] == log[..f - 1];
    if k < f - 1 && !log[f - 1].FlagSet? {
      FlagStaysOff(log, k, f - 1);
    }
  }

  lemma StoppedEntry(log: Log, table: Table, k: nat, p: nat)
    requires LogOk(log, table)
    requires k < p < |log| && log[k] == FlagSet(false) && NoRestart(log, k, p)
    requires log[p].Delivered?
    ensures log[p].snapAt < p && log[log[p].snapAt].Snapped? && log[p].row in log[log[p].snapAt].rows
    ensures log[log[p].snapAt].readAt < k && log[log[log[p].snapAt].readAt] == FlagRead(true)
  {
    assert EventOk(log, table, p);
    var snapAt := log[p].snapAt;
    assert EventOk(log, table, snapAt);
    var readAt := log[snapAt].readAt;
    assert EventOk(log, table, readAt);
    if k < readAt {
      FlagStaysOff(log, k, readAt);
    }
  }

  /**
   After the flag is switched off at `k`, and until it is switched on again, a delivery can only come
   from a batch whose flag reading was made before `k`.
   */
  lemma {:induction false} StoppedDelivery(steps: seq<Step>, k: nat, p: nat)
    requires k < p < |Exec(INIT, steps).log|
    requires Exec(INIT, steps).log[k] == FlagSet(false) && NoRestart(Exec(INIT, steps).log, k, p)
    requires Exec(INIT, steps).log[p].Delivered?
    ensures var log := Exec(INIT, steps).log;
            && log[p].snapAt < p && log[log[p].snapAt].Snapped? && log[p].row in log[log[p].snapAt].rows
            && log[log[p].snapAt].readAt < k && log[log[log[p].snapAt].readAt] == FlagRead(true)
  {
    Reachable(steps);
    StoppedEntry(Exec(INIT, steps).log, Exec(INIT, steps).table, k, p);
  }

  /**
   All those deliveries are the rest of one batch: they share its snapshot with each other, and every
   delivery of that batch, before or after the switch, is of a different row, in row order. This holds
   over ends and restarts of the process.
   */
  lemma {:induction false} KillSafety(steps: seq<Step>, k: nat, p: nat, q: nat)
    requires k < p < q < |Exec(INIT, steps).log|
    requires Exec(INIT, steps).log[k] == FlagSet(false) && NoRestart(Exec(INIT, steps).log, k, q)
    requires Exec(INIT, steps).log[p].Delivered? && Exec(INIT, steps).log[q].Delivered?
    ensures var log := Exec(INIT, steps).log;
            && log[p].snapAt == log[q].snapAt && log[p].row < log[q].row
            && forall o :: 0 <= o < q && log[o].Delivered? && log[o].snapAt == log[q].snapAt ==> log[o].row < log[q].row
  {
    Reachable(steps);
    var log := Exec(INIT, steps).log;
    StoppedDelivery(steps, k, q);
    assert PairOk(log, p, q);
    forall o | 0 <= o < q && log[o].Delivered? && log[o].snapAt == log[q].snapAt
      ensures log[o].row < log[q].row
    {
      assert PairOk(log, o, q);
    }
  }

  /** No task past its flag reading is running. */
  predicate AtRest(s: State) {
    !s.active && (s.phase == Idle || s.phase == Started)
  }

  /**
   With the flag off and no batch running, nothing at all is sent until the flag is switched on again,
   whatever else happens; the end of the process and its restart do not switch it on.
   */
  lemma {:induction false} StoppedStaysStopped(s: State, steps: seq<Step>)
    requires AtRest(s)
    requires forall k :: 0 <= k < |steps| ==> steps[k] != SetFlag(true)
    ensures AtRest(Exec(s, steps))
    ensures Sends(Exec(s, steps).log) == Sends(s.log)
  {
    if |steps| > 0 {
      StoppedStaysStopped(s, steps[..|steps| - 1]);
      RestingStep(Exec(s, steps[..|steps| - 1]), steps[|steps| - 1]);
    }
  }

  lemma RestingSchedule(s: State, step: Step)
    requires AtRest(s)
    ensures AtRest(Schedule(s, step)) && DeliveredBy(s, step).None?
  {
  }

  lemma RestingControl(s: State, step: Step)
    requires AtRest(s) && step != SetFlag(true)
    ensures AtRest(Control(s, step))
  {
  }

  lemma RestingStep(s: State, step: Step)
    requires AtRest(s) && step != SetFlag(true)
    ensures AtRest(Do(s, step)) && Sends(Do(s, step).log) == Sends(s.log)
  {
    if IsScheduler(step) {
      RestingSchedule(s, step);
      ScheduleSends(s, step);
    } else if !IsSubmission(step) {
      RestingControl(s, step);
      ControlSends(s, step);
    }
  }

  // ----- Shutdown -------------------------------------------------------------------------------

  /** Deliveries of all rows. */
  function Sends(log: Log): nat {
    if |log| == 0 then 0 else Sends(log[..|log| - 1]) + if log[|log| - 1].Delivered? then 1 else 0
  }

  /** A row past its loop-head check that has not been delivered yet. */
  function OnItsWay(s: State): nat {
    if s.phase.Sending? then 1 else 0
  }

  lemma {:induction false} SendsSnoc(log: Log, e: Event)
    ensures Sends(log + [e]) == Sends(log) + if e.Delivered? then 1 else 0
  {
    assert (log + [e])[..|log|] == log;
  }

  lemma ScheduleSends(s: State, step: Step)
    ensures Sends(Schedule(s, step).log) == Sends(s.log) + if DeliveredBy(s, step).Some? then 1 else 0
  {
    var log' := Schedule(s, step).log;
    ScheduleLog(s, step);
    if log' != s.log {
      SendsSnoc(s.log, log'[|s.log|]);
    }
  }

  /** A cancelled task never passes the check at the head of its loop. */
  lemma CancelledSchedule(s: State, step: Step)
    requires s.cancelled
    ensures Schedule(s, step).cancelled
    ensures Schedule(s, step).phase.Sending? ==> s.phase.Sending? && DeliveredBy(s, step).None?
    ensures DeliveredBy(s, step).Some? ==> s.phase.Sending?
  {
  }

  lemma ControlLog(s: State, step: Step)
    ensures var log' := Control(s, step).log;
            log' == s.log || (|log'| > |s.log| && log' == s.log + [log'[|s.log|]]
                              && !log'[|s.log|].Delivered? && !log'[|s.log|].Marked?)
  {
  }

  lemma ControlSends(s: State, step: Step)
    ensures Sends(Control(s, step).log) == Sends(s.log)
  {
    var log' := Control(s, step).log;
    ControlLog(s, step);
    if log' != s.log {
      SendsSnoc(s.log, log'[|s.log|]);
    }
  }

  lemma CancelledControl(s: State, step: Step)
    requires s.cancelled && !step.Boot?
    ensures Control(s, step).cancelled
    ensures Sends(Control(s, step).log) == Sends(s.log) && OnItsWay(Control(s, step)) <= OnItsWay(s)
  {
    ControlSends(s, step);
  }

  lemma CancelledStep(s: State, step: Step)
    requires s.cancelled && !step.Boot?
    ensures Do(s, step).cancelled
    ensures Sends(s.log) <= Sends(Do(s, step).log)
    ensures Sends(Do(s, step).log) + OnItsWay(Do(s, step)) <= Sends(s.log) + OnItsWay(s)
  {
    ScheduleSends(s, step);
    CancelledSchedule(s, step);
    CancelledControl(s, step);
  }

  /**
   Once the context is cancelled, the process makes no further send, from any program point, but the
   one that was already past its check.
   */
  lemma {:induction false} Shutdown(s: State, steps: seq<Step>)
    requires s.cancelled
    requires forall k :: 0 <= k < |steps| ==> !steps[k].Boot?
    ensures Exec(s, steps).cancelled
    ensures Sends(s.log) <= Sends(Exec(s, steps).log)
    ensures Sends(Exec(s, steps).log) + OnItsWay(Exec(s, steps)) <= Sends(s.log) + OnItsWay(s) <= Sends(s.log) + 1
  {
    if |steps| > 0 {
      var before := Exec(s, steps[..|steps| - 1]);
      Shutdown(s, steps[..|steps| - 1]);
      CancelledStep(before, steps[|steps| - 1]);
    }
  }

  /** A cancellation, whenever it comes, lets at most one more send happen before the process ends. */
  lemma {:induction false} CancelStops(s: State, steps: seq<Step>)
    requires s.up && forall k :: 0 <= k < |steps| ==> !steps[k].Boot?
    ensures Sends(s.log) <= Sends(Exec(Do(s, Cancel), steps).log) <= Sends(s.log) + 1
  {
    var cancelled := Do(s, Cancel);
    if !s.cancelled {
      SendsSnoc(s.log, Cancelled);
    }
    Shutdown(cancelled, steps);
  }
}
