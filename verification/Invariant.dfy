/** The inductive invariant of the step system: it ties the batch, the table and the log together. */
module Invariant {
  import opened Wrappers
  import opened CertificateTable
  import opened Lifecycle

  // ----- Reading the log ------------------------------------------------------------------------

  /** The flag in force after a log. */
  function FlagIn(log: Log): bool {
    if |log| == 0 then true
    else if log[|log| - 1].FlagSet? then log[|log| - 1].active
    else FlagIn(log[..|log| - 1])
  }

  /** The delay in force after a log. */
  function DelayIn(log: Log): int {
    if |log| == 0 then DEFAULT_DELAY_SECONDS
    else if log[|log| - 1].Booted? then log[|log| - 1].delaySeconds
    else DelayIn(log[..|log| - 1])
  }

  ghost predicate OverriddenIn(log: Log, row: nat) {
    exists p :: 0 <= p < |log| && log[p] == Overridden(row)
  }

  datatype Kind = Deliveries | Failures | Marks | LostMarks

  predicate IsKind(e: Event, kind: Kind, row: nat) {
    match kind
    case Deliveries => e.Delivered? && e.row == row
    case Failures => e.SendFailed? && e.row == row
    case Marks => e.Marked? && e.row == row
    case LostMarks => (e.MarkFailed? || e.Lost?) && e.row == row
  }

  /** How many entries of a kind the log has about a row. */
  function CountOf(log: Log, kind: Kind, row: nat): nat {
    if |log| == 0 then 0
    else CountOf(log[..|log| - 1], kind, row) + if IsKind(log[|log| - 1], kind, row) then 1 else 0
  }

  lemma {:induction false} Snoc(log: Log, e: Event)
    ensures (log + [e])[..|log|] == log
    ensures FlagIn(log + [e]) == if e.FlagSet? then e.active else FlagIn(log)
    ensures DelayIn(log + [e]) == if e.Booted? then e.delaySeconds else DelayIn(log)
    ensures forall kind, row: nat :: CountOf(log + [e], kind, row) == CountOf(log, kind, row) + if IsKind(e, kind, row) then 1 else 0
  {
    assert (log + [e])[..|log|] == log;
  }

  // ----- Entries agree with their causes --------------------------------------------------------

  ghost predicate EventOk(log: Log, table: Table, p: nat)
    requires p < |log|
  {
    match log[p]
    case FlagRead(active) => active == FlagIn(log[..p])
    case Snapped(at, delaySeconds, rows, readAt) =>
      && readAt < p && log[readAt] == FlagRead(true)
      && delaySeconds == DelayIn(log[..p])
      && (forall k :: 0 <= k < |rows| ==>
            && rows[k] < |table|
            && (table[rows[k]].receivedAt + delaySeconds * SECOND <= at || OverriddenIn(log[..p], rows[k])))
    case Delivered(row, at, snapAt) =>
      snapAt < p && log[snapAt].Snapped? && row in log[snapAt].rows && log[snapAt].at <= at
    case Marked(row, ackAt) => ackAt < p && log[ackAt] == AckReceived(row)
    case _ => true
  }

  ghost predicate LogOk(log: Log, table: Table) {
    forall p :: 0 <= p < |log| ==> EventOk(log, table, p)
  }

  lemma TableGrows(log: Log, table: Table, table': Table)
    requires LogOk(log, table) && Grown(table, table')
    ensures LogOk(log, table')
  {
    forall p | 0 <= p < |log|
      ensures EventOk(log, table', p)
    {
      assert EventOk(log, table, p);
    }
  }

  lemma LogGrows(log: Log, table: Table, e: Event)
    requires LogOk(log, table)
    requires EventOk(log + [e], table, |log|)
    ensures LogOk(log + [e], table)
  {
    forall p | 0 <= p < |log|
      ensures EventOk(log + [e], table, p)
    {
      assert EventOk(log, table, p);
      assert (log + [e])[..p] == log[..p];
    }
  }

  // ----- Program points -------------------------------------------------------------------------

  ghost predicate BatchOk(log: Log, table: Table, batch: Batch, i: nat) {
    && batch.snapAt < |log| && log[batch.snapAt].Snapped? && log[batch.snapAt].rows == batch.rows
    && (forall j, k :: 0 <= j < k < |batch.rows| ==> batch.rows[j] < batch.rows[k])
    && (forall k :: 0 <= k < |batch.rows| ==> batch.rows[k] < |table|)
    // The rest of the batch is still unprocessed.
    && (forall k :: i <= k < |batch.rows| ==> table[batch.rows[k]].processedAt.None?)
  }

  ghost predicate PhaseOk(log: Log, table: Table, phase: Phase) {
    match phase
    case Idle => true
    case Started => true
    case Active(readAt) => readAt < |log| && log[readAt] == FlagRead(true)
    case Head(batch, i) => BatchOk(log, table, batch, i)
    case Sending(batch, i) => i < |batch.rows| && BatchOk(log, table, batch, i)
    case Sent(batch, i) => i < |batch.rows| && BatchOk(log, table, batch, i)
    case Acked(batch, i, ackAt) =>
      i < |batch.rows| && BatchOk(log, table, batch, i) && ackAt < |log| && log[ackAt] == AckReceived(batch.rows[i])
  }

  // ----- The database and the clock -------------------------------------------------------------

  ghost predicate StoreOk(s: State) {
    && s.active == FlagIn(s.log)
    && s.delaySeconds == DelayIn(s.log)
    && (s.phase != Idle ==> s.up)
    && (forall r :: 0 <= r < |s.table| && s.table[r].overrideSentAt.Some? ==> OverriddenIn(s.log, r))
    && (forall p :: 0 <= p < |s.log| && (s.log[p].Snapped? || s.log[p].Delivered?) ==> s.log[p].at <= s.now)
  }

  // ----- Deliveries are ordered -----------------------------------------------------------------

  /** Of two deliveries, either one batch made both, in row order, or the later batch read the flag in between. */
  predicate PairOk(log: Log, p: nat, q: nat)
    requires p < |log| && q < |log| && log[p].Delivered? && log[q].Delivered?
  {
    if log[p].snapAt == log[q].snapAt then log[p].row < log[q].row
    else log[q].snapAt < |log| && log[log[q].snapAt].Snapped? && p < log[log[q].snapAt].readAt
  }

  predicate PastBatch(log: Log, batch: Batch, i: nat, p: nat)
    requires p < |log| && log[p].Delivered?
  {
    if log[p].snapAt == batch.snapAt then forall k :: i <= k < |batch.rows| ==> log[p].row < batch.rows[k]
    else batch.snapAt < |log| && log[batch.snapAt].Snapped? && p < log[batch.snapAt].readAt
  }

  predicate PastOk(log: Log, phase: Phase, p: nat)
    requires p < |log| && log[p].Delivered?
  {
    match phase
    case Idle => true
    case Started => true
    case Active(readAt) => p < readAt
    case Head(batch, i) => PastBatch(log, batch, i, p)
    case Sending(batch, i) => PastBatch(log, batch, i, p)
    case Sent(batch, i) => PastBatch(log, batch, i + 1, p)
    case Acked(batch, i, _) => PastBatch(log, batch, i + 1, p)
  }

  ghost predicate Ordered(log: Log, phase: Phase) {
    && (forall p, q :: 0 <= p < q < |log| && log[p].Delivered? && log[q].Delivered? ==> PairOk(log, p, q))
    && (forall p :: 0 <= p < |log| && log[p].Delivered? ==> PastOk(log, phase, p))
  }

  // ----- Deliveries are accounted for -----------------------------------------------------------

  predicate CountOk(log: Log, table: Table, phase: Phase, r: nat) {
    && CountOf(log, Deliveries, r)
       <= CountOf(log, Failures, r) + CountOf(log, LostMarks, r) + CountOf(log, Marks, r)
          + (if InFlight(phase) == Some(r) then 1 else 0)
    && CountOf(log, Marks, r) == if r < |table| && table[r].processedAt.Some? then 1 else 0
  }

  ghost predicate Counted(log: Log, table: Table, phase: Phase) {
    forall r: nat :: CountOk(log, table, phase, r)
  }

  ghost predicate Inv(s: State) {
    && StoreOk(s)
    && LogOk(s.log, s.table)
    && PhaseOk(s.log, s.table, s.phase)
    && Ordered(s.log, s.phase)
    && Counted(s.log, s.table, s.phase)
  }

  // ----- The parts of the invariant under one more entry ----------------------------------------

  lemma EntryKeepsPhase(log: Log, table: Table, phase: Phase, e: Event)
    requires PhaseOk(log, table, phase)
    ensures PhaseOk(log + [e], table, phase)
  {
  }

  lemma EntryKeepsOrder(log: Log, phase: Phase, e: Event)
    requires Ordered(log, phase) && !e.Delivered?
    ensures Ordered(log + [e], phase)
  {
    var log' := log + [e];
    forall p | 0 <= p < |log'| && log'[p].Delivered?
      ensures PastOk(log', phase, p)
    {
      assert PastOk(log, phase, p);
    }
    forall p, q | 0 <= p < q < |log'| && log'[p].Delivered? && log'[q].Delivered?
      ensures PairOk(log', p, q)
    {
      assert PairOk(log, p, q);
    }
  }

  /** A delivery of the next row of the running batch. */
  lemma DeliveryKeepsOrder(log: Log, table: Table, batch: Batch, i: nat, at: int)
    requires Ordered(log, Sending(batch, i)) && PhaseOk(log, table, Sending(batch, i))
    ensures Ordered(log + [Delivered(batch.rows[i], at, batch.snapAt)], Sent(batch, i))
  {
    var log' := log + [Delivered(batch.rows[i], at, batch.snapAt)];
    forall p | 0 <= p < |log| && log[p].Delivered?
      ensures PastOk(log', Sent(batch, i), p) && PairOk(log', p, |log|)
    {
      assert PastBatch(log, batch, i, p);
    }
    forall p, q | 0 <= p < q < |log| && log[p].Delivered? && log[q].Delivered?
      ensures PairOk(log', p, q)
    {
      assert PairOk(log, p, q);
    }
  }

  /** Reading the flag, and then the ready rows, leaves every earlier delivery behind. */
  lemma ReadKeepsOrder(log: Log, phase: Phase)
    requires Ordered(log, phase)
    ensures Ordered(log + [FlagRead(true)], Active(|log|))
  {
    EntryKeepsOrder(log, phase, FlagRead(true));
  }

  lemma SnapshotKeepsOrder(log: Log, table: Table, at: int, delaySeconds: int, rows: seq<nat>, readAt: nat)
    requires LogOk(log, table) && Ordered(log, Active(readAt))
    ensures Ordered(log + [Snapped(at, delaySeconds, rows, readAt)], Head(Batch(rows, |log|), 0))
  {
    var e := Snapped(at, delaySeconds, rows, readAt);
    EntryKeepsOrder(log, Active(readAt), e);
    forall p | 0 <= p < |log| && log[p].Delivered?
      ensures PastOk(log + [e], Head(Batch(rows, |log|), 0), p)
    {
      assert EventOk(log, table, p) && PastOk(log, Active(readAt), p);
    }
  }

  /** The totals stay balanced when the new entry and the new program point agree. */
  lemma EntryKeepsCounts(log: Log, table: Table, phase: Phase, e: Event, table': Table, phase': Phase)
    requires Counted(log, table, phase)
    requires |table'| == |table|
    requires forall r :: 0 <= r < |table| && !(e.Marked? && e.row == r) ==> table'[r].processedAt.Some? == table[r].processedAt.Some?
    requires e.Marked? ==> e.row < |table| && table[e.row].processedAt.None? && table'[e.row].processedAt.Some?
    requires e.Delivered? ==> InFlight(phase).None? && InFlight(phase') == Some(e.row)
    requires !e.Delivered? && InFlight(phase).Some? && InFlight(phase') != InFlight(phase) ==>
               (e.SendFailed? || e.Marked? || e.MarkFailed? || e.Lost?) && InFlight(phase) == Some(e.row)
    ensures Counted(log + [e], table', phase')
  {
    Snoc(log, e);
    forall r: nat
      ensures CountOk(log + [e], table', phase', r)
    {
      assert CountOk(log, table, phase, r);
    }
  }

  lemma CountsKept(log: Log, table: Table, phase: Phase, table': Table, phase': Phase)
    requires Counted(log, table, phase) && InFlight(phase') == InFlight(phase)
    requires |table| <= |table'|
    requires forall r :: 0 <= r < |table| ==> table'[r].processedAt == table[r].processedAt
    requires forall r :: |table| <= r < |table'| ==> table'[r].processedAt.None?
    ensures Counted(log, table', phase')
  {
    forall r: nat
      ensures CountOk(log, table', phase', r)
    {
      assert CountOk(log, table, phase, r);
    }
  }

  // ----- Every step keeps it --------------------------------------------------------------------

  /** The task begins, reads the flag, and moves along its loop. */
  lemma TaskStep(s: State, step: Step)
    requires Inv(s)
    requires step.StartTask? || step.ReadFlag? || step.NextRow?
    ensures Inv(Do(s, step))
  {
    var s' := Do(s, step);
    if step.ReadFlag? && s'.log != s.log {
      var e := FlagRead(s.active);
      Snoc(s.log, e);
      LogGrows(s.log, s.table, e);
      EntryKeepsOrder(s.log, s.phase, e);
      ReadKeepsOrder(s.log, s.phase);
      EntryKeepsCounts(s.log, s.table, s.phase, e, s.table, s'.phase);
      StoreEntry(s, s', e);
    } else {
      CountsKept(s.log, s.table, s.phase, s'.table, s'.phase);
    }
  }

  /** The flag, the delay and the overrides after an entry that does not concern them. */
  lemma StoreEntry(s: State, s': State, e: Event)
    requires StoreOk(s)
    requires s'.log == s.log + [e] && s'.now == s.now
    requires s'.active == (if e.FlagSet? then e.active else s.active)
    requires s'.delaySeconds == if e.Booted? then e.delaySeconds else s.delaySeconds
    requires s'.phase != Idle ==> s'.up
    requires |s'.table| == |s.table|
    requires forall r :: 0 <= r < |s.table| && e != Overridden(r) ==> s'.table[r].overrideSentAt == s.table[r].overrideSentAt
    requires e.Snapped? || e.Delivered? ==> e.at <= s.now
    ensures StoreOk(s')
  {
    Snoc(s.log, e);
    forall r | 0 <= r < |s'.table| && s'.table[r].overrideSentAt.Some?
      ensures OverriddenIn(s'.log, r)
    {
      if e == Overridden(r) {
        assert s'.log[|s.log|] == Overridden(r);
      } else {
        OverriddenStays(s.log, e, r);
      }
    }
  }

  lemma OverriddenStays(log: Log, e: Event, row: nat)
    requires OverriddenIn(log, row)
    ensures OverriddenIn(log + [e], row)
  {
    var p :| 0 <= p < |log| && log[p] == Overridden(row);
    assert (log + [e])[p] == Overridden(row);
  }

  /** Rows read as ready may be released: their delay is over, or they were overridden. */
  lemma SnapshotEntryOk(s: State, rows: seq<nat>, readAt: nat)
    requires StoreOk(s) && PhaseOk(s.log, s.table, Active(readAt))
    requires forall k :: 0 <= k < |rows| ==> rows[k] < |s.table| && Ready(s.table[rows[k]], s.now, s.delaySeconds)
    ensures EventOk(s.log + [Snapped(s.now, s.delaySeconds, rows, readAt)], s.table, |s.log|)
  {
    Snoc(s.log, Snapped(s.now, s.delaySeconds, rows, readAt));
  }

  lemma SnapshotTaken(s: State, s': State, rows: seq<nat>, readAt: nat)
    requires Inv(s) && s.phase == Active(readAt)
    requires forall k :: 0 <= k < |rows| ==> rows[k] < |s.table| && Ready(s.table[rows[k]], s.now, s.delaySeconds)
    requires forall j, k :: 0 <= j < k < |rows| ==> rows[j] < rows[k]
    requires s' == s.(phase := Head(Batch(rows, |s.log|), 0), log := s.log + [Snapped(s.now, s.delaySeconds, rows, readAt)])
    ensures Inv(s')
  {
    var e := Snapped(s.now, s.delaySeconds, rows, readAt);
    SnapshotEntryOk(s, rows, readAt);
    LogGrows(s.log, s.table, e);
    SnapshotKeepsOrder(s.log, s.table, s.now, s.delaySeconds, rows, readAt);
    EntryKeepsCounts(s.log, s.table, s.phase, e, s.table, s'.phase);
    StoreEntry(s, s', e);
  }

  lemma SnapshotStep(s: State, step: Step)
    requires Inv(s)
    requires step.TakeSnapshot?
    ensures Inv(Do(s, step))
  {
    var s' := Do(s, step);
    if s'.log != s.log {
      SnapshotTaken(s, s', s'.phase.batch.rows, s.phase.readAt);
    } else {
      CountsKept(s.log, s.table, s.phase, s'.table, s'.phase);
    }
  }

  lemma DeliverStep(s: State)
    requires Inv(s) && s.phase.Sending?
    ensures Inv(Do(s, Deliver))
  {
    var s' := Do(s, Deliver);
    var batch, i := s.phase.batch, s.phase.i;
    var e := Delivered(batch.rows[i], s.now, batch.snapAt);
    assert s.log[batch.snapAt].at <= s.now && batch.rows[i] in batch.rows;
    LogGrows(s.log, s.table, e);
    DeliveryKeepsOrder(s.log, s.table, batch, i, s.now);
    EntryKeepsPhase(s.log, s.table, s.phase, e);
    EntryKeepsCounts(s.log, s.table, s.phase, e, s.table, s'.phase);
    StoreEntry(s, s', e);
  }

  lemma AnswerStep(s: State, ok: bool)
    requires Inv(s) && (s.phase.Sent? || (s.phase.Sending? && !ok))
    ensures Inv(Do(s, Answer(ok)))
  {
    var s' := Do(s, Answer(ok));
    var row := s.phase.batch.rows[s.phase.i];
    var e := if ok then AckReceived(row) else SendFailed(row);
    LogGrows(s.log, s.table, e);
    EntryKeepsOrder(s.log, s.phase, e);
    NextKeepsOrder(s'.log, s.phase.batch, s.phase.i);
    EntryKeepsPhase(s.log, s.table, s.phase, e);
    EntryKeepsCounts(s.log, s.table, s.phase, e, s.table, s'.phase);
    StoreEntry(s, s', e);
  }

  lemma NextKeepsOrder(log: Log, batch: Batch, i: nat)
    requires Ordered(log, Sending(batch, i)) || Ordered(log, Sent(batch, i))
    ensures Ordered(log, Head(batch, i + 1))
  {
    forall p | 0 <= p < |log| && log[p].Delivered?
      ensures PastOk(log, Head(batch, i + 1), p)
    {
      assert PastOk(log, Sending(batch, i), p) || PastOk(log, Sent(batch, i), p);
    }
  }

  lemma MarkStep(s: State, ok: bool)
    requires Inv(s) && s.phase.Acked?
    ensures Inv(Do(s, Mark(ok)))
  {
    if ok {
      Marking(s, Do(s, Mark(true)), Marked(s.phase.batch.rows[s.phase.i], s.phase.ackAt));
    } else {
      Marking(s, Do(s, Mark(false)), MarkFailed(s.phase.batch.rows[s.phase.i]));
    }
  }

  lemma Marking(s: State, s': State, e: Event)
    requires Inv(s) && s.phase.Acked?
    requires var row := s.phase.batch.rows[s.phase.i];
             && e in {Marked(row, s.phase.ackAt), MarkFailed(row)}
             && s' == s.(phase := Head(s.phase.batch, s.phase.i + 1), log := s.log + [e],
                         table := if e.Marked? then MarkProcessed(s.table, row, s.now) else s.table)
    ensures Inv(s')
  {
    var batch, i := s.phase.batch, s.phase.i;
    TableGrows(s.log, s.table, s'.table);
    LogGrows(s.log, s'.table, e);
    EntryKeepsOrder(s.log, Sent(batch, i), e);
    NextKeepsOrder(s'.log, batch, i);
    assert forall k :: i < k < |batch.rows| ==> batch.rows[k] != batch.rows[i];
    EntryKeepsCounts(s.log, s.table, s.phase, e, s'.table, s'.phase);
    StoreEntry(s, s', e);
  }

  /** Only rows are added. */
  lemma RowsAdded(s: State, s': State)
    requires Inv(s)
    requires s' == s.(table := s'.table, submissions := s'.submissions, origin := s'.origin, forwarded := s'.forwarded)
    requires s.table <= s'.table
    requires forall r :: |s.table| <= r < |s'.table| ==> s'.table[r].processedAt.None? && s'.table[r].overrideSentAt.None?
    ensures Inv(s')
  {
    TableGrows(s.log, s.table, s'.table);
    CountsKept(s.log, s.table, s.phase, s'.table, s'.phase);
  }

  lemma SubmissionStep(s: State, step: Step)
    requires Inv(s) && IsSubmission(step)
    ensures Inv(Do(s, step))
  {
    RowsAdded(s, Do(s, step));
  }

  /** An entry that is not the scheduler's: it stays where it is, or the process ends. */
  lemma OutsideEntry(s: State, s': State, e: Event)
    requires Inv(s)
    requires s'.log == s.log + [e] && s'.now == s.now
    requires s'.active == if e.FlagSet? then e.active else s.active
    requires s'.delaySeconds == if e.Booted? then e.delaySeconds else s.delaySeconds
    requires s'.phase != Idle ==> s'.up
    requires Grown(s.table, s'.table) && |s'.table| == |s.table|
    requires forall r :: 0 <= r < |s.table| ==> s'.table[r].processedAt == s.table[r].processedAt
    requires forall r :: 0 <= r < |s.table| && e != Overridden(r) ==> s'.table[r].overrideSentAt == s.table[r].overrideSentAt
    requires e.FlagSet? || e.Overridden? || e.Booted? || e.Cancelled? || e.Lost?
    requires s'.phase == s.phase || (s'.phase == Idle && (InFlight(s.phase).Some? ==> e == Lost(InFlight(s.phase).value)))
    ensures Inv(s')
  {
    TableGrows(s.log, s.table, s'.table);
    LogGrows(s.log, s'.table, e);
    EntryKeepsOrder(s.log, s.phase, e);
    EntryKeepsPhase(s.log, s'.table, s.phase, e);
    EntryKeepsCounts(s.log, s.table, s.phase, e, s'.table, s'.phase);
    StoreEntry(s, s', e);
  }

  /** Time passes, or the process ends with nothing in flight. */
  lemma NoEntry(s: State, s': State)
    requires Inv(s)
    requires s' == s.(now := s'.now, up := s'.up, phase := s'.phase, submissions := s'.submissions)
    requires s'.now >= s.now
    requires (s'.phase == s.phase && s'.up == s.up) || (s'.phase == Idle && InFlight(s.phase).None?)
    ensures Inv(s')
  {
    CountsKept(s.log, s.table, s.phase, s'.table, s'.phase);
  }

  lemma ControlStep(s: State, step: Step)
    requires Inv(s) && !IsSubmission(step) && !IsScheduler(step)
    requires Do(s, step) != s
    ensures Inv(Do(s, step))
  {
    var s' := Do(s, step);
    if step.Tick? || (step.Halt? && InFlight(s.phase).None?) {
      NoEntry(s, s');
    } else {
      OutsideEntry(s, s', s'.log[|s.log|]);
    }
  }

  lemma Step(s: State, step: Step)
    requires Inv(s)
    ensures Inv(Do(s, step))
  {
    if Do(s, step) == s {
    } else if IsSubmission(step) {
      SubmissionStep(s, step);
    } else if !IsScheduler(step) {
      ControlStep(s, step);
    } else {
      match step
      case TakeSnapshot(_, _) => SnapshotStep(s, step);
      case Deliver => DeliverStep(s);
      case Answer(ok) => AnswerStep(s, ok);
      case Mark(ok) => MarkStep(s, ok);
      case _ => TaskStep(s, step);
    }
  }

  /** The invariant holds after every run. */
  lemma {:induction false} Reachable(steps: seq<Step>)
    ensures Inv(Exec(INIT, steps))
  {
    if |steps| > 0 {
      Reachable(steps[..|steps| - 1]);
      Step(Exec(INIT, steps[..|steps| - 1]), steps[|steps| - 1]);
    }
  }
}
