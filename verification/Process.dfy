/**
 The scheduler task as the program runs it, inside the step system.

 `world` is everything the task shares with the rest of the proxy. Between any two of its calls the
 others take any steps they like, as `env` says. The task's own control flow uses only its local
 variables and what its calls return.
 */
module Process {
  import opened Wrappers
  import opened CertificateTable
  import opened Lifecycle
  import opened Safety

  /** What the others do before a call of the task, and how that call ends. */
  datatype Moment = Moment(others: seq<Step>, ok: bool, delivered: bool, upTo: nat)

  predicate IsOther(step: Step) {
    !IsScheduler(step) && !step.Halt? && !step.Boot?
  }

  ghost predicate OthersOnly(env: nat -> Moment) {
    forall n: nat, k :: 0 <= k < |env(n).others| ==> IsOther(env(n).others[k])
  }

  /** Others leave the task where it is. */
  lemma {:induction false} OthersKeepPhase(s: State, steps: seq<Step>)
    requires forall k :: 0 <= k < |steps| ==> IsOther(steps[k])
    ensures Exec(s, steps).phase == s.phase && Exec(s, steps).up == s.up
    ensures DeliveredRows(Exec(s, steps).log) == DeliveredRows(s.log) && MarkedRows(Exec(s, steps).log) == MarkedRows(s.log)
  {
    if |steps| > 0 {
      OthersKeepPhase(s, steps[..|steps| - 1]);
      OtherKeepsPhase(Exec(s, steps[..|steps| - 1]), steps[|steps| - 1]);
    }
  }

  lemma OtherKeepsPhase(s: State, step: Step)
    requires IsOther(step)
    ensures Do(s, step).phase == s.phase && Do(s, step).up == s.up
    ensures DeliveredRows(Do(s, step).log) == DeliveredRows(s.log) && MarkedRows(Do(s, step).log) == MarkedRows(s.log)
  {
    var log' := Do(s, step).log;
    ControlLog(s, step);
    OtherPhase(s, step);
    if log' != s.log {
      RowsSnoc(s.log, log'[|s.log|]);
    }
  }

  lemma OtherPhase(s: State, step: Step)
    requires IsOther(step)
    ensures Serve(s, step).phase == s.phase && Serve(s, step).up == s.up && Serve(s, step).log == s.log
    ensures Control(s, step).phase == s.phase && Control(s, step).up == s.up
  {
  }

  /** The rows delivered by the scheduler, in order. */
  function DeliveredRows(log: Log): seq<nat> {
    if |log| == 0 then []
    else
      var front, last := DeliveredRows(log[..|log| - 1]), log[|log| - 1];
      if last.Delivered? then front + [last.row] else front
  }

  /** The rows marked as processed, in order. */
  function MarkedRows(log: Log): seq<nat> {
    if |log| == 0 then []
    else
      var front, last := MarkedRows(log[..|log| - 1]), log[|log| - 1];
      if last.Marked? then front + [last.row] else front
  }

  lemma {:induction false} RowsSnoc(log: Log, e: Event)
    ensures DeliveredRows(log + [e]) == if e.Delivered? then DeliveredRows(log) + [e.row] else DeliveredRows(log)
    ensures MarkedRows(log + [e]) == if e.Marked? then MarkedRows(log) + [e.row] else MarkedRows(log)
  {
    assert (log + [e])[..|log|] == log;
  }

  /** What a step of the task delivers. */
  function SentBy(s: State, step: Step): seq<nat> {
    if DeliveredBy(s, step).Some? then [DeliveredBy(s, step).value] else []
  }

  /** What a step of the task marks. */
  function MarkedBy(s: State, step: Step): seq<nat> {
    if step == Mark(true) && s.phase.Acked? && s.phase.i < |s.phase.batch.rows| then [s.phase.batch.rows[s.phase.i]] else []
  }

  lemma ScheduleMarks(s: State, step: Step)
    ensures var log' := Schedule(s, step).log;
            |log'| > |s.log| ==> (log'[|s.log|].Marked? <==> MarkedBy(s, step) != [])
                                 && (log'[|s.log|].Marked? ==> [log'[|s.log|].row] == MarkedBy(s, step))
    ensures |Schedule(s, step).log| <= |s.log| ==> MarkedBy(s, step) == []
  {
  }

  lemma StepDelivers(s: State, step: Step)
    requires IsScheduler(step)
    ensures DeliveredRows(Do(s, step).log) == DeliveredRows(s.log) + SentBy(s, step)
  {
    var log' := Schedule(s, step).log;
    ScheduleLog(s, step);
    if log' != s.log {
      RowsSnoc(s.log, log'[|s.log|]);
    }
  }

  lemma StepMarks(s: State, step: Step)
    requires IsScheduler(step)
    ensures MarkedRows(Do(s, step).log) == MarkedRows(s.log) + MarkedBy(s, step)
  {
    var log' := Schedule(s, step).log;
    ScheduleLog(s, step);
    ScheduleMarks(s, step);
    if log' != s.log {
      RowsSnoc(s.log, log'[|s.log|]);
    }
  }

  /**
   A run continued by steps of the task and, unless it is quiet, of the others; the process neither ends
   nor starts.
   */
  ghost predicate Continues(before: seq<Step>, after: seq<Step>, quiet: bool) {
    before <= after && forall k :: |before| <= k < |after| ==> IsScheduler(after[k]) || (!quiet && IsOther(after[k]))
  }

  lemma {:induction false} SendsAreRows(log: Log)
    ensures Sends(log) == |DeliveredRows(log)|
  {
    if |log| > 0 {
      SendsAreRows(log[..|log| - 1]);
    }
  }

  /** However a cancelled run goes on, it delivers at most the row already past its check, and no other. */
  lemma {:induction false} CancelledTask(start: State, before: seq<Step>, after: seq<Step>)
    requires Continues(before, after, false) && Exec(start, before).cancelled
    ensures Exec(start, after).cancelled
    ensures |DeliveredRows(Exec(start, after).log)| <= |DeliveredRows(Exec(start, before).log)| + OnItsWay(Exec(start, before))
  {
    var rest := after[|before|..];
    assert after == before + rest;
    ExecConcat(start, before, rest);
    Shutdown(Exec(start, before), rest);
    SendsAreRows(Exec(start, before).log);
    SendsAreRows(Exec(start, after).log);
  }

  // ----- What a run does to the rows ------------------------------------------------------------

  /** From `before` to `after` exactly the rows `rows` have been marked as processed, in that time. */
  ghost predicate Marks(before: State, after: State, rows: seq<nat>) {
    && before.now <= after.now && |before.table| <= |after.table|
    && (forall r :: r in rows ==> r < |after.table|)
    && forall r: nat :: r < |after.table| ==>
         if r in rows then
           after.table[r].processedAt.Some? && before.now <= after.table[r].processedAt.value <= after.now
         else
           after.table[r].processedAt == if r < |before.table| then before.table[r].processedAt else None
  }

  lemma MarksOn(a: State, b: State, c: State, x: seq<nat>, y: seq<nat>)
    requires Marks(a, b, x) && Marks(b, c, y)
    ensures Marks(a, c, x + y)
  {
  }

  lemma OtherMarks(s: State, step: Step)
    requires IsOther(step)
    ensures Marks(s, Do(s, step), [])
  {
  }

  /** The rows of the batch exist. */
  predicate InRange(s: State) {
    match s.phase
    case Head(batch, _) => forall k :: 0 <= k < |batch.rows| ==> batch.rows[k] < |s.table|
    case Sending(batch, _) => forall k :: 0 <= k < |batch.rows| ==> batch.rows[k] < |s.table|
    case Sent(batch, _) => forall k :: 0 <= k < |batch.rows| ==> batch.rows[k] < |s.table|
    case Acked(batch, _, _) => forall k :: 0 <= k < |batch.rows| ==> batch.rows[k] < |s.table|
    case _ => true
  }

  /** Only what the scheduler writes is different. */
  predicate Still(before: State, after: State) {
    && after == before.(phase := after.phase, table := after.table, log := after.log)
    && |after.table| == |before.table|
  }

  lemma ScheduleTable(s: State, step: Step)
    ensures Still(s, Schedule(s, step))
    ensures Schedule(s, step).table
         == if MarkedBy(s, step) == [] then s.table else MarkProcessed(s.table, MarkedBy(s, step)[0], s.now)
  {
  }

  lemma ScheduleInRange(s: State, step: Step)
    requires InRange(s)
    ensures InRange(Schedule(s, step))
    ensures forall k :: 0 <= k < |MarkedBy(s, step)| ==> MarkedBy(s, step)[k] < |s.table|
  {
    ScheduleTable(s, step);
  }

  lemma TaskMarks(s: State, step: Step)
    requires IsScheduler(step) && InRange(s)
    ensures Marks(s, Do(s, step), MarkedBy(s, step)) && InRange(Do(s, step))
  {
    ScheduleTable(s, step);
    ScheduleInRange(s, step);
  }

  lemma OtherInRange(s: State, step: Step)
    requires IsOther(step) && InRange(s)
    ensures InRange(Do(s, step))
  {
    OtherKeepsPhase(s, step);
    OtherMarks(s, step);
  }

  /** The rows marked in a run are those its log gains as marked; in a quiet run nothing else changes. */
  lemma {:induction false} RunMarks(s: State, steps: seq<Step>, quiet: bool) returns (marked: seq<nat>)
    requires InRange(s)
    requires forall k :: 0 <= k < |steps| ==> IsScheduler(steps[k]) || (!quiet && IsOther(steps[k]))
    ensures InRange(Exec(s, steps))
    ensures MarkedRows(Exec(s, steps).log) == MarkedRows(s.log) + marked
    ensures Marks(s, Exec(s, steps), marked)
    ensures quiet ==> Still(s, Exec(s, steps))
  {
    if |steps| == 0 {
      marked := [];
    } else {
      var before, last := Exec(s, steps[..|steps| - 1]), steps[|steps| - 1];
      var front := RunMarks(s, steps[..|steps| - 1], quiet);
      if IsScheduler(last) {
        StepMarks(before, last);
        TaskMarks(before, last);
        ScheduleTable(before, last);
        MarksOn(s, before, Do(before, last), front, MarkedBy(before, last));
        marked := front + MarkedBy(before, last);
      } else {
        OtherKeepsPhase(before, last);
        OtherMarks(before, last);
        OtherInRange(before, last);
        MarksOn(s, before, Do(before, last), front, []);
        assert front + [] == front;
        marked := front;
      }
    }
  }

  /** The same for the part of a run that a task adds. */
  lemma {:induction false} AddedMarks(start: State, before: seq<Step>, after: seq<Step>, quiet: bool, marked: seq<nat>)
    requires Continues(before, after, quiet) && InRange(Exec(start, before))
    requires MarkedRows(Exec(start, after).log) == MarkedRows(Exec(start, before).log) + marked
    ensures Marks(Exec(start, before), Exec(start, after), marked)
    ensures quiet ==> Still(Exec(start, before), Exec(start, after))
  {
    var rest := after[|before|..];
    assert after == before + rest;
    ExecConcat(start, before, rest);
    var found := RunMarks(Exec(start, before), rest, quiet);
    assert found == (MarkedRows(Exec(start, before).log) + found)[|MarkedRows(Exec(start, before).log)|..];
    assert marked == (MarkedRows(Exec(start, before).log) + marked)[|MarkedRows(Exec(start, before).log)|..];
  }

  // ----- How single calls end -------------------------------------------------------------------

  /** No other part of the proxy takes a step. */
  ghost predicate Quiet(env: nat -> Moment) {
    forall n: nat :: env(n).others == []
  }

  /** What becomes of one row of the batch. */
  datatype Outcome = NotSent | Unanswered | Unmarked | Done

  /** A send that is not delivered or not answered is not marked; neither is one whose mark fails. */
  function OutcomeAt(env: nat -> Moment, t: nat): Outcome {
    if !env(t).delivered then NotSent
    else if !env(t + 1).ok then Unanswered
    else if !env(t + 2).ok then Unmarked
    else Done
  }

  function SentRows(batch: seq<nat>, report: seq<Outcome>): seq<nat>
    requires |report| <= |batch|
  {
    if |report| == 0 then []
    else
      var n := |report| - 1;
      if report[n] == NotSent then SentRows(batch, report[..n]) else SentRows(batch, report[..n]) + [batch[n]]
  }

  function DoneRows(batch: seq<nat>, report: seq<Outcome>): seq<nat>
    requires |report| <= |batch|
  {
    if |report| == 0 then []
    else
      var n := |report| - 1;
      if report[n] == Done then DoneRows(batch, report[..n]) + [batch[n]] else DoneRows(batch, report[..n])
  }

  lemma {:induction false} OneMoreRow(batch: seq<nat>, report: seq<Outcome>, outcome: Outcome)
    requires |report| < |batch|
    ensures var row := batch[|report|];
            && SentRows(batch, report + [outcome])
               == (if outcome == NotSent then SentRows(batch, report) else SentRows(batch, report) + [row])
            && DoneRows(batch, report + [outcome])
               == if outcome == Done then DoneRows(batch, report) + [row] else DoneRows(batch, report)
  {
    assert (report + [outcome])[..|report|] == report;
  }

  /**
   Rows of the batch have been tried in order, row `k` at the moment `turns[k]`; `report[k]` is what became
   of it, and the rows sent and the rows marked follow.
   */
  ghost predicate Reported(env: nat -> Moment, batch: seq<nat>, report: seq<Outcome>, turns: seq<nat>,
                           sent: seq<nat>, marked: seq<nat>) {
    && |report| == |turns| <= |batch|
    && (forall k :: 0 <= k < |report| ==> report[k] == OutcomeAt(env, turns[k]))
    && sent == SentRows(batch, report) && marked == DoneRows(batch, report)
  }

  lemma ReportedOne(env: nat -> Moment, batch: seq<nat>, report: seq<Outcome>, turns: seq<nat>,
                    sent: seq<nat>, marked: seq<nat>, t: nat)
    requires Reported(env, batch, report, turns, sent, marked) && |report| < |batch|
    ensures var row, outcome := batch[|report|], OutcomeAt(env, t);
            Reported(env, batch, report + [outcome], turns + [t],
                     if outcome == NotSent then sent else sent + [row], if outcome == Done then marked + [row] else marked)
  {
    OneMoreRow(batch, report, OutcomeAt(env, t));
  }

  /** What the log gains. */
  ghost predicate Logged(before: Log, after: Log, sent: seq<nat>, marked: seq<nat>) {
    DeliveredRows(after) == DeliveredRows(before) + sent && MarkedRows(after) == MarkedRows(before) + marked
  }

  lemma {:induction false} NothingTried(env: nat -> Moment, before: Log, after: Log)
    requires DeliveredRows(after) == DeliveredRows(before) && MarkedRows(after) == MarkedRows(before)
    ensures Reported(env, [], [], [], [], []) && Logged(before, after, [], [])
  {
  }

  lemma {:induction false} LoggedLater(before: Log, log: Log, after: Log, sent: seq<nat>, marked: seq<nat>)
    requires DeliveredRows(log) == DeliveredRows(before) && MarkedRows(log) == MarkedRows(before)
    requires Logged(log, after, sent, marked)
    ensures Logged(before, after, sent, marked)
  {
  }

  lemma LoggedOne(before: Log, log: Log, after: Log, sent: seq<nat>, marked: seq<nat>, x: seq<nat>, y: seq<nat>)
    requires Logged(before, log, sent, marked) && Logged(log, after, x, y)
    ensures Logged(before, after, sent + x, marked + y)
  {
    assert DeliveredRows(before) + sent + x == DeliveredRows(before) + (sent + x);
    assert MarkedRows(before) + marked + y == MarkedRows(before) + (marked + y);
  }

  /** The ready rows, or as many of them as were read. */
  function BatchRead(s: State, m: Moment): seq<nat> {
    var ready := Processable(s.table, s.now, s.delaySeconds);
    if !m.ok then [] else if m.upTo < |ready| then ready[..m.upTo] else ready
  }

  /** What is read from the table, after whatever the others do before. */
  function PendingBatch(s: State, env: nat -> Moment, t: nat): seq<nat> {
    BatchRead(Exec(s, env(t).others), env(t))
  }

  /** The rows a task tries once it has started: none if the flag cannot be read or is off. */
  function BatchAfterStart(s: State, env: nat -> Moment, t: nat): seq<nat> {
    var asked := Exec(s, env(t).others);
    if !env(t).ok || !asked.active then []
    else PendingBatch(Do(asked, ReadFlag(true)), env, t + 1)
  }

  /** The rows a task tries: none if the context is cancelled. */
  function BatchOf(s: State, env: nat -> Moment, t: nat): seq<nat> {
    var first := Exec(s, env(t).others);
    if first.cancelled then [] else BatchAfterStart(Do(first, StartTask), env, t + 1)
  }

  // ----- When nothing interferes ----------------------------------------------------------------

  /** Every call succeeds, at least `n` rows can be read, and no other part of the proxy takes a step. */
  ghost predicate Calm(env: nat -> Moment, n: nat) {
    forall k: nat :: env(k).others == [] && env(k).ok && env(k).delivered && env(k).upTo >= n
  }

  lemma {:induction false} NoSteps(s: State)
    ensures Exec(s, []) == s
  {
  }

  lemma {:induction false} ReadyFit(table: Table, now: int, delaySeconds: int)
    ensures |Processable(table, now, delaySeconds)| <= |table|
  {
    if |table| > 0 {
      ReadyFit(table[..|table| - 1], now, delaySeconds);
    }
  }

  lemma {:induction false} AllDone(batch: seq<nat>, report: seq<Outcome>)
    requires |report| <= |batch| && forall k :: 0 <= k < |report| ==> report[k] == Done
    ensures SentRows(batch, report) == DoneRows(batch, report) == batch[..|report|]
  {
    if |report| > 0 {
      var n := |report| - 1;
      AllDone(batch, report[..n]);
      assert batch[..n] + [batch[n]] == batch[..n + 1];
    }
  }

  /** The batch of a calm run is what is ready. */
  lemma {:induction false} CalmBatch(s: State, env: nat -> Moment, t: nat)
    requires s.up && s.phase == Idle && Calm(env, |s.table|)
    ensures BatchOf(s, env, t) == if s.active && !s.cancelled then Processable(s.table, s.now, s.delaySeconds) else []
  {
    NoSteps(s);
    assert env(t).others == [];
    if !s.cancelled {
      CalmStarted(Do(s, StartTask), env, t + 1);
    }
  }

  lemma {:induction false} CalmStarted(s: State, env: nat -> Moment, t: nat)
    requires s.phase == Started && Calm(env, |s.table|)
    ensures BatchAfterStart(s, env, t) == if s.active then Processable(s.table, s.now, s.delaySeconds) else []
  {
    NoSteps(s);
    NoSteps(Do(s, ReadFlag(true)));
    assert env(t).others == [] && env(t + 1).others == [];
    ReadyFit(s.table, s.now, s.delaySeconds);
  }

  lemma {:induction false} BatchStarts(s: State, env: nat -> Moment, t: nat, first: State, begun: State)
    requires first == Exec(s, env(t).others) && (!first.cancelled ==> begun == Do(first, StartTask))
    ensures BatchOf(s, env, t) == if first.cancelled then [] else BatchAfterStart(begun, env, t + 1)
  {
  }

  lemma {:induction false} BatchGoesOn(s: State, env: nat -> Moment, t: nat, asked: State, after: State)
    requires asked == Exec(s, env(t).others) && after == Do(asked, ReadFlag(env(t).ok))
    ensures BatchAfterStart(s, env, t) == if env(t).ok && asked.active then PendingBatch(after, env, t + 1) else []
  {
  }

  /** With no interference exactly the rows due are sent and given the time, if releases are on. */
  ghost predicate SentWhatIsDue(s: State, s': State, sent: seq<nat>) {
    && |s'.table| == |s.table|
    && (forall j, k :: 0 <= j < k < |sent| ==> sent[j] < sent[k])
    && (forall k :: 0 <= k < |sent| ==> sent[k] < |s.table|)
    && forall r: nat :: r < |s.table| ==>
         && (r in sent <==>
               s.active && !s.cancelled && s.table[r].processedAt.None?
               && (s.table[r].receivedAt + s.delaySeconds * 1_000_000_000 <= s.now || s.table[r].overrideSentAt.Some?))
         && s'.table[r].processedAt == if r in sent then Some(s.now) else s.table[r].processedAt
  }

  lemma DueRows(s: State, sent: seq<nat>)
    requires sent == if s.active && !s.cancelled then Processable(s.table, s.now, s.delaySeconds) else []
    ensures forall j, k :: 0 <= j < k < |sent| ==> sent[j] < sent[k]
    ensures forall k :: 0 <= k < |sent| ==> sent[k] < |s.table|
    ensures forall r: nat :: r < |s.table| ==>
              (r in sent <==>
                 s.active && !s.cancelled && s.table[r].processedAt.None?
                 && (s.table[r].receivedAt + s.delaySeconds * 1_000_000_000 <= s.now || s.table[r].overrideSentAt.Some?))
  {
    if s.active && !s.cancelled {
      var ready := Processable(s.table, s.now, s.delaySeconds);
      assert sent == ready;
    }
  }

  lemma StillMarks(s: State, s': State, sent: seq<nat>)
    requires Marks(s, s', sent) && Still(s, s')
    ensures forall r: nat :: r < |s.table| ==>
              s'.table[r].processedAt == if r in sent then Some(s.now) else s.table[r].processedAt
  {
  }

  lemma CalmReport(env: nat -> Moment, n: nat, batch: seq<nat>, report: seq<Outcome>, turns: seq<nat>,
                   sent: seq<nat>, marked: seq<nat>)
    requires Calm(env, n) && Reported(env, batch, report, turns, sent, marked) && |report| == |batch|
    ensures sent == marked == batch
  {
    AllDone(batch, report);
    assert batch[..|batch|] == batch;
  }

  lemma CalmRun(s: State, s': State, batch: seq<nat>)
    requires batch == if s.active && !s.cancelled then Processable(s.table, s.now, s.delaySeconds) else []
    requires Marks(s, s', batch) && Still(s, s')
    ensures SentWhatIsDue(s, s', batch)
  {
    DueRows(s, batch);
    StillMarks(s, s', batch);
  }

  class Task {
    var world: State
    var turn: nat
    ghost var start: State
    ghost var trace: seq<Step>

    /** The world is where the steps taken since the task began have led. */
    ghost predicate Valid()
      reads this
    {
      world == Exec(start, trace)
    }

    constructor (s: State)
      ensures Valid() && world == s && trace == []
    {
      world, turn, start, trace := s, 0, s, [];
    }

    method Interleave(env: nat -> Moment)
      requires Valid() && OthersOnly(env)
      modifies this
      ensures Valid() && start == old(start) && Continues(old(trace), trace, env(turn).others == []) && turn == old(turn)
      ensures world == Exec(old(world), env(turn).others)
      ensures world.phase == old(world.phase) && world.up == old(world.up)
      ensures MarkedRows(world.log) == MarkedRows(old(world.log))
      ensures DeliveredRows(world.log) == DeliveredRows(old(world.log))
    {
      OthersKeepPhase(world, env(turn).others);
      ExecConcat(start, trace, env(turn).others);
      world := Exec(world, env(turn).others);
      trace := trace + env(turn).others;
    }

    /** One step of the task, which must be possible here. */
    method Take(step: Step)
      requires Valid() && IsScheduler(step)
      requires Do(world, step) != world
      modifies this
      ensures Valid() && start == old(start) && Continues(old(trace), trace, true) && turn == old(turn) + 1
      ensures world == Do(old(world), step)
      ensures DeliveredRows(world.log) == DeliveredRows(old(world.log)) + SentBy(old(world), step)
      ensures MarkedRows(world.log) == MarkedRows(old(world.log)) + MarkedBy(old(world), step)
    {
      OneMoreStep(start, trace, step);
      StepDelivers(world, step);
      StepMarks(world, step);
      ghost var before := trace;
      world := Do(world, step);
      trace := trace + [step];
      turn := turn + 1;
      assert Continues(before, trace, true);
    }

    /** `GetSchedulerStatus`; an error ends the task. */
    method GetSchedulerStatus(ok: bool) returns (isActive: bool)
      requires Valid() && world.phase == Started
      modifies this
      ensures Valid() && start == old(start) && Continues(old(trace), trace, true) && turn == old(turn) + 1
      ensures if isActive then world.phase.Active? else world.phase == Idle
      ensures isActive <==> ok && old(world.active)
      ensures world == Do(old(world), ReadFlag(ok)) && MarkedRows(world.log) == MarkedRows(old(world.log))
      ensures DeliveredRows(world.log) == DeliveredRows(old(world.log))
    {
      isActive := ok && world.active;
      Take(ReadFlag(ok));
    }

    /** `GetProcessableCertificates`: the ready rows, or as many of them as were read; an error ends the batch. */
    method GetProcessableCertificates(m: Moment) returns (certs: seq<nat>)
      requires Valid() && world.phase.Active?
      modifies this
      ensures Valid() && start == old(start) && Continues(old(trace), trace, true) && turn == old(turn) + 1
      ensures certs == BatchRead(old(world), m)
      ensures if m.ok then world.phase.Head? && world.phase.batch.rows == certs && world.phase.i == 0 else world.phase == Idle
      ensures MarkedRows(world.log) == MarkedRows(old(world.log))
      ensures DeliveredRows(world.log) == DeliveredRows(old(world.log))
    {
      var ready := Processable(world.table, world.now, world.delaySeconds);
      certs := if !m.ok then [] else if m.upTo < |ready| then ready[..m.upTo] else ready;
      Take(TakeSnapshot(m.ok, m.upTo));
    }

    /** The context check at the head of the loop, or the end of the loop. */
    method Next() returns (done: bool)
      requires Valid() && world.phase.Head?
      modifies this
      ensures Valid() && start == old(start) && Continues(old(trace), trace, true) && turn == old(turn) + 1
      ensures done <==> old(world.phase).i >= |old(world.phase).batch.rows| || old(world.cancelled)
      ensures world.cancelled == old(world.cancelled)
      ensures world.phase == if done then Idle else Sending(old(world.phase).batch, old(world.phase).i)
      ensures MarkedRows(world.log) == MarkedRows(old(world.log))
      ensures DeliveredRows(world.log) == DeliveredRows(old(world.log))
    {
      done := world.phase.i >= |world.phase.batch.rows| || world.cancelled;
      Take(NextRow);
    }

    /** The request reaches the upstream node. */
    method Reach()
      requires Valid() && world.phase.Sending? && world.phase.i < |world.phase.batch.rows|
      modifies this
      ensures Valid() && start == old(start) && Continues(old(trace), trace, true) && turn == old(turn) + 1
      ensures world.phase == Sent(old(world.phase).batch, old(world.phase).i)
      ensures MarkedRows(world.log) == MarkedRows(old(world.log))
      ensures DeliveredRows(world.log) == DeliveredRows(old(world.log)) + [world.phase.batch.rows[world.phase.i]]
    {
      Take(Deliver);
    }

    /** The call returns; without a delivery only with an error. */
    method Hear(ok: bool)
      requires Valid() && (world.phase.Sent? || (world.phase.Sending? && !ok)) && world.phase.i < |world.phase.batch.rows|
      modifies this
      ensures Valid() && start == old(start) && Continues(old(trace), trace, true) && turn == old(turn) + 1
      ensures if ok then world.phase.Acked? && world.phase.batch == old(world.phase).batch && world.phase.i == old(world.phase).i
              else world.phase == Head(old(world.phase).batch, old(world.phase).i + 1)
      ensures MarkedRows(world.log) == MarkedRows(old(world.log))
      ensures DeliveredRows(world.log) == DeliveredRows(old(world.log))
    {
      Take(Answer(ok));
    }

    /** `SendToAggSender`: the request may be delivered or not, and the answer may be an error either way. */
    method SendToAggSender(env: nat -> Moment, row: nat) returns (err: bool, delivered: bool)
      requires Valid() && OthersOnly(env)
      requires world.phase.Sending? && world.phase.i < |world.phase.batch.rows| && row == world.phase.batch.rows[world.phase.i]
      modifies this
      ensures Valid() && start == old(start) && Continues(old(trace), trace, Quiet(env)) && turn > old(turn)
      ensures delivered == env(old(turn)).delivered
      ensures err <==> !delivered || !env(old(turn) + 1).ok
      ensures err ==> world.phase == Head(old(world.phase).batch, old(world.phase).i + 1)
      ensures !err ==> turn == old(turn) + 2
      ensures !err ==> world.phase.Acked? && world.phase.batch == old(world.phase).batch && world.phase.i == old(world.phase).i
      ensures MarkedRows(world.log) == MarkedRows(old(world.log))
      ensures DeliveredRows(world.log)
           == if delivered then DeliveredRows(old(world.log)) + [row] else DeliveredRows(old(world.log))
    {
      Interleave(env);
      delivered := env(turn).delivered;
      if delivered {
        Reach();
        Interleave(env);
        err := !env(turn).ok;
      } else {
        err := true;
      }
      Hear(!err);
    }

    /** `MarkCertificateProcessed` writes the time into its own row; an error is logged and the loop goes on. */
    method MarkCertificateProcessed(ok: bool)
      requires Valid() && world.phase.Acked? && world.phase.i < |world.phase.batch.rows|
      modifies this
      ensures Valid() && start == old(start) && Continues(old(trace), trace, true) && turn == old(turn) + 1
      ensures world.phase == Head(old(world.phase).batch, old(world.phase).i + 1)
      ensures var row := old(world.phase).batch.rows[old(world.phase).i];
              && world.table == (if ok && row < |old(world.table)| then
                                   old(world.table)[row := old(world.table)[row].(processedAt := Some(old(world.now)))]
                                 else old(world.table))
              && MarkedRows(world.log) == if ok then MarkedRows(old(world.log)) + [row] else MarkedRows(old(world.log))
      ensures DeliveredRows(world.log) == DeliveredRows(old(world.log))
    {
      ScheduleTable(world, Mark(ok));
      Take(Mark(ok));
    }

    /** The check at the head of the loop, with whatever happened before it. */
    method Check(env: nat -> Moment) returns (done: bool)
      requires Valid() && OthersOnly(env)
      requires world.phase.Head? && world.phase.i < |world.phase.batch.rows|
      modifies this
      ensures Valid() && start == old(start) && Continues(old(trace), trace, Quiet(env)) && turn == old(turn) + 1
      ensures done <==> world.cancelled
      ensures world.phase == if done then Idle else Sending(old(world.phase).batch, old(world.phase).i)
      ensures MarkedRows(world.log) == MarkedRows(old(world.log))
      ensures DeliveredRows(world.log) == DeliveredRows(old(world.log))
    {
      Interleave(env);
      done := Next();
    }

    /** The mark, with whatever happened before it. */
    method MarkRow(env: nat -> Moment) returns (ok: bool)
      requires Valid() && OthersOnly(env)
      requires world.phase.Acked? && world.phase.i < |world.phase.batch.rows|
      modifies this
      ensures Valid() && start == old(start) && Continues(old(trace), trace, Quiet(env)) && turn == old(turn) + 1
      ensures ok == env(old(turn)).ok
      ensures world.phase == Head(old(world.phase).batch, old(world.phase).i + 1)
      ensures var row := old(world.phase).batch.rows[old(world.phase).i];
              MarkedRows(world.log) == if ok then MarkedRows(old(world.log)) + [row] else MarkedRows(old(world.log))
      ensures DeliveredRows(world.log) == DeliveredRows(old(world.log))
    {
      Interleave(env);
      ok := env(turn).ok;
      MarkCertificateProcessed(ok);
    }

    /** One round of the loop: the context check, the send and, if it was answered without error, the mark. */
    method ProcessRow(env: nat -> Moment, row: nat) returns (done: bool, outcome: Outcome)
      requires Valid() && OthersOnly(env)
      requires world.phase.Head? && world.phase.i < |world.phase.batch.rows| && row == world.phase.batch.rows[world.phase.i]
      modifies this
      ensures Valid() && start == old(start) && Continues(old(trace), trace, Quiet(env)) && turn > old(turn)
      ensures done ==> world.cancelled && outcome == NotSent
      ensures !done ==> turn > old(turn) + 1 && outcome == OutcomeAt(env, old(turn) + 1)
      ensures world.phase == if done then Idle else Head(old(world.phase).batch, old(world.phase).i + 1)
      ensures Logged(old(world.log), world.log, if outcome == NotSent then [] else [row], if outcome == Done then [row] else [])
    {
      outcome := NotSent;
      done := Check(env);
      if !done {
        outcome := SendRow(env, row);
      }
    }

    /** A row past the check: an error ends its round. */
    method SendRow(env: nat -> Moment, row: nat) returns (outcome: Outcome)
      requires Valid() && OthersOnly(env)
      requires world.phase.Sending? && world.phase.i < |world.phase.batch.rows| && row == world.phase.batch.rows[world.phase.i]
      modifies this
      ensures Valid() && start == old(start) && Continues(old(trace), trace, Quiet(env)) && turn > old(turn)
      ensures outcome == OutcomeAt(env, old(turn))
      ensures world.phase == Head(old(world.phase).batch, old(world.phase).i + 1)
      ensures MarkedRows(world.log)
           == if outcome == Done then MarkedRows(old(world.log)) + [row] else MarkedRows(old(world.log))
      ensures DeliveredRows(world.log)
           == if outcome == NotSent then DeliveredRows(old(world.log)) else DeliveredRows(old(world.log)) + [row]
    {
      var err, delivered := SendToAggSender(env, row);
      if err {
        outcome := if delivered then Unanswered else NotSent;
      } else {
        var ok := MarkRow(env);
        outcome := if ok then Done else Unmarked;
      }
    }

    /** The read of the ready rows, with whatever happened before it. */
    method ReadRows(env: nat -> Moment) returns (certs: seq<nat>)
      requires Valid() && OthersOnly(env) && world.phase.Active?
      modifies this
      ensures Valid() && start == old(start) && Continues(old(trace), trace, Quiet(env)) && turn == old(turn) + 1
      ensures certs == PendingBatch(old(world), env, old(turn))
      ensures if env(old(turn)).ok then world.phase.Head? && world.phase.batch.rows == certs && world.phase.i == 0
              else world.phase == Idle
      ensures MarkedRows(world.log) == MarkedRows(old(world.log))
      ensures DeliveredRows(world.log) == DeliveredRows(old(world.log))
    {
      Interleave(env);
      certs := GetProcessableCertificates(env(turn));
    }

    /**
     `ProcessPendingCertificates`: the rows of the batch are tried in order, and only a cancelled context
     ends the loop before the last. Row `k` was tried at the moment `turns[k]`; `report[k]` is what became
     of it. What was sent and what was marked follows.
     */
    method ProcessPendingCertificates(env: nat -> Moment)
      returns (sent: seq<nat>, ghost batch: seq<nat>, ghost report: seq<Outcome>, ghost turns: seq<nat>,
               ghost marked: seq<nat>)
      requires Valid() && OthersOnly(env)
      requires world.phase.Active?
      modifies this
      ensures Valid() && start == old(start) && Continues(old(trace), trace, Quiet(env))
      ensures world.phase == Idle
      ensures batch == PendingBatch(old(world), env, old(turn))
      ensures |report| < |batch| ==> world.cancelled
      ensures Reported(env, batch, report, turns, sent, marked)
      ensures Logged(old(world.log), world.log, sent, marked)
    {
      sent, report, turns, marked := [], [], [], [];
      var ok := env(turn).ok;
      var certs := ReadRows(env);
      batch := certs;
      if ok {
        sent, report, turns, marked := TryRows(env, certs);
      }
    }

    /** The loop over the rows. */
    method TryRows(env: nat -> Moment, certs: seq<nat>)
      returns (sent: seq<nat>, ghost report: seq<Outcome>, ghost turns: seq<nat>, ghost marked: seq<nat>)
      requires Valid() && OthersOnly(env)
      requires world.phase.Head? && world.phase.batch.rows == certs && world.phase.i == 0
      modifies this
      ensures Valid() && start == old(start) && Continues(old(trace), trace, Quiet(env))
      ensures world.phase == Idle
      ensures |report| < |certs| ==> world.cancelled
      ensures Reported(env, certs, report, turns, sent, marked)
      ensures Logged(old(world.log), world.log, sent, marked)
    {
      var done;
      sent, done, report, turns, marked := LoopRows(env, certs);
      if !done {
        done := Next();
      }
    }

    method LoopRows(env: nat -> Moment, certs: seq<nat>)
      returns (sent: seq<nat>, done: bool, ghost report: seq<Outcome>, ghost turns: seq<nat>, ghost marked: seq<nat>)
      requires Valid() && OthersOnly(env)
      requires world.phase.Head? && world.phase.batch.rows == certs && world.phase.i == 0
      modifies this
      ensures Valid() && start == old(start) && Continues(old(trace), trace, Quiet(env))
      ensures if done then world.phase == Idle && world.cancelled
              else world.phase.Head? && world.phase.batch.rows == certs && world.phase.i == |certs| == |report|
      ensures Reported(env, certs, report, turns, sent, marked)
      ensures Logged(old(world.log), world.log, sent, marked)
    {
      sent, report, turns, marked := [], [], [], [];
      done := false;
      for i := 0 to |certs|
        invariant Valid() && start == old(start) && Continues(old(trace), trace, Quiet(env))
        invariant !done && world.phase.Head? && world.phase.batch.rows == certs && world.phase.i == i
        invariant |report| == i && Reported(env, certs, report, turns, sent, marked)
        invariant Logged(old(world.log), world.log, sent, marked)
      {
        ghost var log, t := world.log, turn + 1;
        var outcome;
        done, outcome := ProcessRow(env, certs[i]);
        if done {
          LoggedOne(old(world.log), log, world.log, sent, marked, [], []);
          assert sent + [] == sent && marked + [] == marked;
          break;
        }
        ReportedOne(env, certs, report, turns, sent, marked, t);
        LoggedOne(old(world.log), log, world.log, sent, marked,
                  if outcome == NotSent then [] else [certs[i]], if outcome == Done then [certs[i]] else []);
        report, turns := report + [outcome], turns + [t];
        if outcome != NotSent {
          sent := sent + [certs[i]];
        }
        if outcome == Done {
          marked := marked + [certs[i]];
        }
      }
    }

    /**
     `processCertificates`: one run of the task continues the run of the step system by steps of its own
     and of the others and ends with the task idle. It tries the rows that are ready when it reads them,
     if it gets that far; the report says what became of each. If nothing interferes and every call
     succeeds, then with the flag on it sends exactly the unprocessed rows whose delay is over or that have
     been overridden, in row order, and writes the time into each of them and into no other.
     */
    method ProcessCertificates(env: nat -> Moment)
      returns (sent: seq<nat>, ghost batch: seq<nat>, ghost report: seq<Outcome>, ghost turns: seq<nat>,
               ghost marked: seq<nat>)
      requires Valid() && OthersOnly(env)
      requires world.phase == Idle && world.up
      modifies this
      ensures Valid() && start == old(start) && Continues(old(trace), trace, Quiet(env))
      ensures world.phase == Idle
      ensures batch == BatchOf(old(world), env, old(turn))
      ensures |report| < |batch| ==> world.cancelled
      ensures Reported(env, batch, report, turns, sent, marked)
      ensures Logged(old(world.log), world.log, sent, marked)
      ensures Marks(old(world), world, marked)
      ensures old(world.cancelled) ==> sent == []
      ensures Calm(env, |old(world.table)|) ==> SentWhatIsDue(old(world), world, sent)
    {
      sent, batch, report, turns, marked := Run(env);
      AddedMarks(start, old(trace), trace, Quiet(env), marked);
      if old(world.cancelled) {
        CancelledTask(start, old(trace), trace);
      }
      if Calm(env, |old(world.table)|) {
        CalmBatch(old(world), env, old(turn));
        CalmReport(env, |old(world.table)|, batch, report, turns, sent, marked);
        CalmRun(old(world), world, batch);
      }
    }

    method Run(env: nat -> Moment)
      returns (sent: seq<nat>, ghost batch: seq<nat>, ghost report: seq<Outcome>, ghost turns: seq<nat>,
               ghost marked: seq<nat>)
      requires Valid() && OthersOnly(env)
      requires world.phase == Idle && world.up
      modifies this
      ensures Valid() && start == old(start) && Continues(old(trace), trace, Quiet(env))
      ensures world.phase == Idle
      ensures batch == BatchOf(old(world), env, old(turn))
      ensures |report| < |batch| ==> world.cancelled
      ensures Reported(env, batch, report, turns, sent, marked)
      ensures Logged(old(world.log), world.log, sent, marked)
    {
      sent, batch, report, turns, marked := [], [], [], [], [];
      var started := Begin(env);
      ghost var log := world.log;
      if started {
        sent, batch, report, turns, marked := AfterStart(env);
        LoggedLater(old(world.log), log, world.log, sent, marked);
      } else {
        NothingTried(env, old(world.log), log);
      }
    }

    /** The task from its reading of the flag on. */
    method AfterStart(env: nat -> Moment)
      returns (sent: seq<nat>, ghost batch: seq<nat>, ghost report: seq<Outcome>, ghost turns: seq<nat>,
               ghost marked: seq<nat>)
      requires Valid() && OthersOnly(env) && world.phase == Started
      modifies this
      ensures Valid() && start == old(start) && Continues(old(trace), trace, Quiet(env))
      ensures world.phase == Idle
      ensures batch == BatchAfterStart(old(world), env, old(turn))
      ensures |report| < |batch| ==> world.cancelled
      ensures Reported(env, batch, report, turns, sent, marked)
      ensures Logged(old(world.log), world.log, sent, marked)
    {
      sent, batch, report, turns, marked := [], [], [], [], [];
      var isActive := Ask(env);
      ghost var log := world.log;
      if isActive {
        sent, batch, report, turns, marked := ProcessPendingCertificates(env);
        LoggedLater(old(world.log), log, world.log, sent, marked);
      } else {
        NothingTried(env, old(world.log), log);
      }
    }

    /** The first context check. */
    method Begin(env: nat -> Moment) returns (started: bool)
      requires Valid() && OthersOnly(env)
      requires world.phase == Idle && world.up
      modifies this
      ensures Valid() && start == old(start) && Continues(old(trace), trace, Quiet(env))
      ensures started <==> !world.cancelled
      ensures world.phase == if started then Started else Idle
      ensures BatchOf(old(world), env, old(turn)) == if started then BatchAfterStart(world, env, turn) else []
      ensures MarkedRows(world.log) == MarkedRows(old(world.log))
      ensures DeliveredRows(world.log) == DeliveredRows(old(world.log))
    {
      ghost var s, t := world, turn;
      Interleave(env);
      ghost var first := world;
      started := !world.cancelled;
      if started {
        StartUp();
      }
      BatchStarts(s, env, t, first, world);
    }

    /** The task joins the wait group. */
    method StartUp()
      requires Valid() && world.phase == Idle && world.up && !world.cancelled
      modifies this
      ensures Valid() && start == old(start) && Continues(old(trace), trace, true) && turn == old(turn) + 1
      ensures world == Do(old(world), StartTask) && world.phase == Started && !world.cancelled
      ensures MarkedRows(world.log) == MarkedRows(old(world.log))
      ensures DeliveredRows(world.log) == DeliveredRows(old(world.log))
    {
      Take(StartTask);
    }

    /** The flag, with whatever happened before it is read. */
    method Ask(env: nat -> Moment) returns (isActive: bool)
      requires Valid() && OthersOnly(env) && world.phase == Started
      modifies this
      ensures Valid() && start == old(start) && Continues(old(trace), trace, Quiet(env)) && turn == old(turn) + 1
      ensures if isActive then world.phase.Active? else world.phase == Idle
      ensures BatchAfterStart(old(world), env, old(turn)) == if isActive then PendingBatch(world, env, turn) else []
      ensures MarkedRows(world.log) == MarkedRows(old(world.log))
      ensures DeliveredRows(world.log) == DeliveredRows(old(world.log))
    {
      ghost var s, t := world, turn;
      Interleave(env);
      ghost var asked := world;
      isActive := GetSchedulerStatus(env(turn).ok);
      BatchGoesOn(s, env, t, asked, world);
    }
  }
}
