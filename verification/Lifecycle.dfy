/**
 The life of a held certificate as a step system.

 The scheduler task is one process with explicit program points; submissions, the endpoints, the
 clock, cancellation, the end of the process and its restart interleave with it between any two of
 its steps. Each database statement is one atomic step. A step that is not possible changes nothing,
 so every sequence of steps is a run.

 The log records what happened. An entry that has a cause carries the position of that cause.
 */
module Lifecycle {
  import opened Wrappers
  import opened Bytes
  import opened Metadata
  import opened CertificateTable

  /** The ready rows a batch has read, and the log position at which it read them. */
  datatype Batch = Batch(rows: seq<nat>, snapAt: nat)

  /** Program points of `processCertificates` and `ProcessPendingCertificates`. */
  datatype Phase =
    | Idle                                       // no task is running
    | Started                                    // past the first context check
    | Active(readAt: nat)                        // the flag was read as active
    | Head(batch: Batch, i: nat)                 // at the head of the loop over the rows
    | Sending(batch: Batch, i: nat)              // past the context check, row not delivered yet
    | Sent(batch: Batch, i: nat)                 // delivered upstream, no answer yet
    | Acked(batch: Batch, i: nat, ackAt: nat)    // answered without error, row not marked yet

  datatype SubmissionPhase =
    | Deciding
    | Forwarded            // delivered upstream, no answer yet
    | ForwardAcked
    | Held(row: nat)
    | Returned             // the submitter has its answer
    | Gone                 // the process ended first

  datatype Submission = Submission(
    rawProto: bytes, certId: bytes, metadata: Option<Meta>, hold: bool, phase: SubmissionPhase)

  datatype Event =
    | FlagRead(active: bool)
    | Snapped(at: int, delaySeconds: int, rows: seq<nat>, readAt: nat)
    | Delivered(row: nat, at: int, snapAt: nat)
    | AckReceived(row: nat)
    | SendFailed(row: nat)
    | Marked(row: nat, ackAt: nat)
    | MarkFailed(row: nat)
    | Lost(row: nat)       // the process ended between the delivery and the mark
    | FlagSet(active: bool)
    | Overridden(row: nat)
    | Booted(delaySeconds: int)
    | Cancelled

  type Log = seq<Event>

  datatype State = State(
    now: int,
    table: Table,
    active: bool,
    delaySeconds: int,
    up: bool,
    cancelled: bool,
    phase: Phase,
    submissions: seq<Submission>,
    origin: seq<nat>,        // for each row, the submission it came from
    forwarded: seq<nat>,     // submissions whose immediate forward was acknowledged
    log: Log)

  datatype Step =
    | Tick(elapsed: nat)
    // the scheduler task
    | StartTask
    | ReadFlag(ok: bool)
    | TakeSnapshot(ok: bool, upTo: nat)   // a read that breaks off returns the rows read so far
    | NextRow
    | Deliver
    | Answer(ok: bool)
    | Mark(ok: bool)
    // submissions
    | Submit(rawProto: bytes, certId: bytes, metadata: Option<Meta>, hold: bool)
    | Store(k: nat)
    | Forward(k: nat)
    | ForwardAnswer(k: nat)
    | Return(k: nat)
    // endpoints and the process
    | Override(row: nat)
    | SetFlag(active: bool)
    | Cancel
    | Halt
    | Boot(delaySeconds: int)

  const INIT: State := State(0, [], true, DEFAULT_DELAY_SECONDS, false, false, Idle, [], [], [], [])

  /** The scheduler's steps. It takes one at a time: a task starts only when none is running. */
  function Schedule(s: State, step: Step): State {
    match (step, s.phase)
    case (StartTask, Idle) =>
      if s.up && !s.cancelled then s.(phase := Started) else s
    case (ReadFlag(ok), Started) =>
      if !ok then s.(phase := Idle)
      else s.(phase := if s.active then Active(|s.log|) else Idle, log := s.log + [FlagRead(s.active)])
    case (TakeSnapshot(ok, upTo), Active(readAt)) =>
      if !ok then s.(phase := Idle)
      else
        var ready := Processable(s.table, s.now, s.delaySeconds);
        var rows := if upTo < |ready| then ready[..upTo] else ready;
        s.(phase := Head(Batch(rows, |s.log|), 0), log := s.log + [Snapped(s.now, s.delaySeconds, rows, readAt)])
    case (NextRow, Head(batch, i)) =>
      s.(phase := if i < |batch.rows| && !s.cancelled then Sending(batch, i) else Idle)
    case (Deliver, Sending(batch, i)) =>
      if i < |batch.rows| then
        s.(phase := Sent(batch, i), log := s.log + [Delivered(batch.rows[i], s.now, batch.snapAt)])
      else s
    case (Answer(ok), Sending(batch, i)) =>
      // Nothing was delivered, so the answer can only be an error.
      if i < |batch.rows| && !ok then
        s.(phase := Head(batch, i + 1), log := s.log + [SendFailed(batch.rows[i])])
      else s
    case (Answer(ok), Sent(batch, i)) =>
      if i < |batch.rows| then
        if ok then s.(phase := Acked(batch, i, |s.log|), log := s.log + [AckReceived(batch.rows[i])])
        else s.(phase := Head(batch, i + 1), log := s.log + [SendFailed(batch.rows[i])])
      else s
    case (Mark(ok), Acked(batch, i, ackAt)) =>
      if i < |batch.rows| then
        if ok then
          s.(phase := Head(batch, i + 1), table := MarkProcessed(s.table, batch.rows[i], s.now),
             log := s.log + [Marked(batch.rows[i], ackAt)])
        else s.(phase := Head(batch, i + 1), log := s.log + [MarkFailed(batch.rows[i])])
      else s
    case _ => s
  }

  function WithSubmission(s: State, k: nat, phase: SubmissionPhase): State
    requires k < |s.submissions|
  {
    s.(submissions := s.submissions[k := s.submissions[k].(phase := phase)])
  }

  predicate InPhase(s: State, k: nat, phase: SubmissionPhase) {
    s.up && k < |s.submissions| && s.submissions[k].phase == phase
  }

  /** The steps of `SubmitCertificate`; the decision to hold is taken when the submission arrives. */
  function Serve(s: State, step: Step): State {
    match step
    case Submit(rawProto, certId, metadata, hold) =>
      if s.up then
        s.(submissions := s.submissions + [Submission(rawProto, certId, metadata, hold, Deciding)])
      else s
    case Store(k) =>
      if InPhase(s, k, Deciding) && s.submissions[k].hold then
        var c := s.submissions[k];
        WithSubmission(s, k, Held(|s.table|))
          .(table := s.table + [NewRow(c.rawProto, c.certId, c.metadata, s.now)], origin := s.origin + [k])
      else s
    case Forward(k) =>
      if InPhase(s, k, Deciding) && !s.submissions[k].hold then WithSubmission(s, k, Forwarded) else s
    case ForwardAnswer(k) =>
      if InPhase(s, k, Forwarded) then WithSubmission(s, k, ForwardAcked).(forwarded := s.forwarded + [k]) else s
    case Return(k) =>
      if InPhase(s, k, ForwardAcked) || (s.up && k < |s.submissions| && s.submissions[k].phase.Held?) then
        WithSubmission(s, k, Returned)
      else s
    case _ => s
  }

  /** Submissions still running when the process ends never return. */
  function Dropped(submissions: seq<Submission>): (after: seq<Submission>)
    ensures |after| == |submissions|
  {
    seq(|submissions|, k requires 0 <= k < |submissions| =>
      if submissions[k].phase.Returned? then submissions[k] else submissions[k].(phase := Gone))
  }

  /** The row the scheduler has delivered but not marked. */
  function InFlight(phase: Phase): Option<nat> {
    match phase
    case Sent(batch, i) => if i < |batch.rows| then Some(batch.rows[i]) else None
    case Acked(batch, i, _) => if i < |batch.rows| then Some(batch.rows[i]) else None
    case _ => None
  }

  /** The endpoints, the context and the process. */
  function Control(s: State, step: Step): State {
    match step
    case Tick(elapsed) => s.(now := s.now + elapsed)
    case Override(row) =>
      if s.up && row < |s.table| then
        s.(table := MarkOverrideSent(s.table, row, s.now), log := s.log + [Overridden(row)])
      else s
    case SetFlag(active) => if s.up then s.(active := active, log := s.log + [FlagSet(active)]) else s
    case Cancel => if s.up && !s.cancelled then s.(cancelled := true, log := s.log + [Cancelled]) else s
    case Halt =>
      if s.up then
        s.(up := false, phase := Idle, submissions := Dropped(s.submissions),
           log := if InFlight(s.phase).Some? then s.log + [Lost(InFlight(s.phase).value)] else s.log)
      else s
    case Boot(delaySeconds) =>
      if !s.up then s.(up := true, cancelled := false, delaySeconds := delaySeconds, log := s.log + [Booted(delaySeconds)])
      else s
    case _ => s
  }

  predicate IsScheduler(step: Step) {
    step.StartTask? || step.ReadFlag? || step.TakeSnapshot? || step.NextRow? || step.Deliver? || step.Answer? || step.Mark?
  }

  predicate IsSubmission(step: Step) {
    step.Submit? || step.Store? || step.Forward? || step.ForwardAnswer? || step.Return?
  }

  function Do(s: State, step: Step): State {
    if IsScheduler(step) then Schedule(s, step)
    else if IsSubmission(step) then Serve(s, step)
    else Control(s, step)
  }

  function Exec(s: State, steps: seq<Step>): State {
    if |steps| == 0 then s else Do(Exec(s, steps[..|steps| - 1]), steps[|steps| - 1])
  }

  /** The row a step of the scheduler delivers. */
  function DeliveredBy(s: State, step: Step): Option<nat> {
    if step.Deliver? && s.phase.Sending? && s.phase.i < |s.phase.batch.rows| then Some(s.phase.batch.rows[s.phase.i])
    else None
  }

  /** A scheduler step adds at most one entry, and a delivery only for the row it delivers. */
  lemma ScheduleLog(s: State, step: Step)
    ensures var log' := Schedule(s, step).log;
            if DeliveredBy(s, step).Some? then
              log' == s.log + [Delivered(DeliveredBy(s, step).value, s.now, s.phase.batch.snapAt)]
            else
              log' == s.log || (|log'| > |s.log| && log' == s.log + [log'[|s.log|]] && !log'[|s.log|].Delivered?)
  {
  }

  /** A run continued. */
  lemma {:induction false} ExecConcat(s: State, a: seq<Step>, b: seq<Step>)
    ensures Exec(s, a + b) == Exec(Exec(s, a), b)
  {
    if |b| == 0 {
      assert a + b == a;
    } else {
      assert (a + b)[..|a + b| - 1] == a + b[..|b| - 1];
      ExecConcat(s, a, b[..|b| - 1]);
    }
  }

  lemma {:induction false} OneMoreStep(s: State, steps: seq<Step>, step: Step)
    ensures Exec(s, steps + [step]) == Do(Exec(s, steps), step)
  {
    assert (steps + [step])[..|steps|] == steps;
  }
}
