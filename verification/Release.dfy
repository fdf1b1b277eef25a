/** That releases do happen: what a batch does when nothing interferes, and what an override causes. */
module Release {
  import opened Wrappers
  import opened CertificateTable
  import opened Lifecycle
  import opened Safety
  import opened Process

  const ROW_STEPS: seq<Step> := [NextRow, Deliver, Answer(true), Mark(true)]

  function LoopSteps(n: nat): seq<Step> {
    if n == 0 then [] else LoopSteps(n - 1) + ROW_STEPS
  }

  /** One run of the task in which every call succeeds and nothing else happens. */
  function BatchSteps(s: State): seq<Step> {
    [StartTask, ReadFlag(true), TakeSnapshot(true, |s.table|)]
    + LoopSteps(|Processable(s.table, s.now, s.delaySeconds)|) + [NextRow]
  }

  lemma {:induction false} ThreeSteps(s: State, a: Step, b: Step, c: Step)
    ensures Exec(s, [a, b, c]) == Do(Do(Do(s, a), b), c)
  {
    assert [] + [a] == [a] && [a] + [b] == [a, b] && [a, b] + [c] == [a, b, c];
    OneMoreStep(s, [], a);
    OneMoreStep(s, [a], b);
    OneMoreStep(s, [a, b], c);
  }

  lemma {:induction false} FourSteps(s: State, a: Step, b: Step, c: Step, d: Step)
    ensures Exec(s, [a, b, c, d]) == Do(Do(Do(Do(s, a), b), c), d)
  {
    ThreeSteps(s, a, b, c);
    assert [a, b, c] + [d] == [a, b, c, d];
    OneMoreStep(s, [a, b, c], d);
  }

  /** What the four calls for one row change. */
  ghost predicate RowDone(s: State, s': State, batch: Batch, i: nat)
    requires i < |batch.rows|
  {
    && s'.phase == Head(batch, i + 1) && s'.now == s.now && s'.cancelled == s.cancelled
    && s'.table == MarkProcessed(s.table, batch.rows[i], s.now)
    && DeliveredRows(s'.log) == DeliveredRows(s.log) + [batch.rows[i]]
  }

  lemma RowSent(s: State, batch: Batch, i: nat)
    requires s.phase == Head(batch, i) && i < |batch.rows| && !s.cancelled
    ensures var sent := Do(Do(s, NextRow), Deliver);
            && sent == s.(phase := Sent(batch, i), log := s.log + [Delivered(batch.rows[i], s.now, batch.snapAt)])
            && DeliveredRows(sent.log) == DeliveredRows(s.log) + [batch.rows[i]]
  {
    assert Do(s, NextRow) == s.(phase := Sending(batch, i));
    RowsSnoc(s.log, Delivered(batch.rows[i], s.now, batch.snapAt));
  }

  lemma RowAcked(s: State, batch: Batch, i: nat)
    requires s.phase == Sent(batch, i) && i < |batch.rows|
    ensures var acked := Do(s, Answer(true));
            && acked == s.(phase := Acked(batch, i, |s.log|), log := s.log + [AckReceived(batch.rows[i])])
            && DeliveredRows(acked.log) == DeliveredRows(s.log)
  {
    RowsSnoc(s.log, AckReceived(batch.rows[i]));
  }

  lemma RowMarked(s: State, batch: Batch, i: nat, ackAt: nat)
    requires s.phase == Acked(batch, i, ackAt) && i < |batch.rows|
    ensures var marked := Do(s, Mark(true));
            && marked == s.(phase := Head(batch, i + 1), table := MarkProcessed(s.table, batch.rows[i], s.now),
                            log := s.log + [Marked(batch.rows[i], ackAt)])
            && DeliveredRows(marked.log) == DeliveredRows(s.log)
  {
    RowsSnoc(s.log, Marked(batch.rows[i], ackAt));
  }

  lemma {:induction false} OneRow(s: State, batch: Batch, i: nat)
    requires s.phase == Head(batch, i) && i < |batch.rows| && !s.cancelled
    ensures RowDone(s, Exec(s, ROW_STEPS), batch, i)
  {
    var sent := Do(Do(s, NextRow), Deliver);
    RowSent(s, batch, i);
    RowAcked(sent, batch, i);
    RowMarked(Do(sent, Answer(true)), batch, i, |sent.log|);
    FourSteps(s, NextRow, Deliver, Answer(true), Mark(true));
  }

  /** The first `n` rows of the batch have been sent, in order, and marked; no other row has changed. */
  ghost predicate DoneUpTo(before: State, s: State, batch: Batch, n: nat)
    requires n <= |batch.rows|
  {
    && s.phase == Head(batch, n) && s.now == before.now && !s.cancelled
    && DeliveredRows(s.log) == DeliveredRows(before.log) + batch.rows[..n]
    && |s.table| == |before.table|
    && forall r :: 0 <= r < |s.table| ==>
         s.table[r] == if r in batch.rows[..n] then before.table[r].(processedAt := Some(before.now)) else before.table[r]
  }

  lemma OneMoreDone(before: State, s: State, s': State, batch: Batch, n: nat)
    requires n < |batch.rows| && batch.rows[n] < |before.table|
    requires DoneUpTo(before, s, batch, n) && RowDone(s, s', batch, n)
    ensures DoneUpTo(before, s', batch, n + 1)
  {
    assert batch.rows[..n + 1] == batch.rows[..n] + [batch.rows[n]];
  }

  lemma NothingDone(s: State, batch: Batch)
    requires s.phase == Head(batch, 0) && !s.cancelled
    ensures DoneUpTo(s, s, batch, 0)
  {
  }

  lemma LoopUnfolds(s: State, n: nat)
    requires n > 0
    ensures Exec(s, LoopSteps(n)) == Exec(Exec(s, LoopSteps(n - 1)), ROW_STEPS)
  {
    ExecConcat(s, LoopSteps(n - 1), ROW_STEPS);
  }

  lemma {:induction false} LoopRound(s: State, before: State, after: State, batch: Batch, n: nat)
    requires n < |batch.rows| && batch.rows[n] < |s.table|
    requires DoneUpTo(s, before, batch, n) && after == Exec(before, ROW_STEPS)
    ensures DoneUpTo(s, after, batch, n + 1)
  {
    OneRow(before, batch, n);
    OneMoreDone(s, before, after, batch, n);
  }

  lemma {:induction false} LoopStart(s: State, batch: Batch)
    requires s.phase == Head(batch, 0) && !s.cancelled
    ensures DoneUpTo(s, Exec(s, LoopSteps(0)), batch, 0)
  {
    NothingDone(s, batch);
  }

  lemma LoopNext(s: State, batch: Batch, n: nat)
    requires 0 < n <= |batch.rows| && batch.rows[n - 1] < |s.table|
    requires DoneUpTo(s, Exec(s, LoopSteps(n - 1)), batch, n - 1)
    ensures DoneUpTo(s, Exec(s, LoopSteps(n)), batch, n)
  {
    var before := Exec(s, LoopSteps(n - 1));
    LoopUnfolds(s, n);
    LoopRound(s, before, Exec(before, ROW_STEPS), batch, n - 1);
  }

  lemma {:induction false} Loop(s: State, batch: Batch, n: nat)
    requires s.phase == Head(batch, 0) && !s.cancelled && n <= |batch.rows|
    requires forall k :: 0 <= k < |batch.rows| ==> batch.rows[k] < |s.table|
    ensures DoneUpTo(s, Exec(s, LoopSteps(n)), batch, n)
  {
    if n == 0 {
      LoopStart(s, batch);
    } else {
      Loop(s, batch, n - 1);
      LoopNext(s, batch, n);
    }
  }

  lemma {:induction false} Opening(s: State)
    requires s.up && !s.cancelled && s.active && s.phase == Idle
    ensures var ready := Processable(s.table, s.now, s.delaySeconds);
            var begun := Exec(s, [StartTask, ReadFlag(true), TakeSnapshot(true, |s.table|)]);
            && begun == s.(phase := Head(Batch(ready, |s.log| + 1), 0), log := begun.log)
            && DeliveredRows(begun.log) == DeliveredRows(s.log)
  {
    var ready := Processable(s.table, s.now, s.delaySeconds);
    var s1 := s.(phase := Started);
    var s2 := s1.(phase := Active(|s.log|), log := s.log + [FlagRead(true)]);
    var s3 := s2.(phase := Head(Batch(ready, |s2.log|), 0),
                  log := s2.log + [Snapped(s.now, s.delaySeconds, ready, |s.log|)]);
    assert Do(s, StartTask) == s1;
    assert Do(s1, ReadFlag(true)) == s2;
    assert Do(s2, TakeSnapshot(true, |s.table|)) == s3 by {
      ReadyFit(s.table, s.now, s.delaySeconds);
    }
    ThreeSteps(s, StartTask, ReadFlag(true), TakeSnapshot(true, |s.table|));
    RowsSnoc(s.log, FlagRead(true));
    RowsSnoc(s2.log, Snapped(s.now, s.delaySeconds, ready, |s.log|));
  }

  /** The end of the loop: the task is idle again and every row of the batch is done. */
  lemma Closing(begun: State, looped: State, batch: Batch)
    requires DoneUpTo(begun, looped, batch, |batch.rows|)
    ensures var s' := Do(looped, NextRow);
            && s'.phase == Idle && s'.table == looped.table
            && DeliveredRows(s'.log) == DeliveredRows(begun.log) + batch.rows
  {
    assert batch.rows[..|batch.rows|] == batch.rows;
    StepDelivers(looped, NextRow);
  }

  lemma {:induction false} BatchParts(s: State)
    ensures var begun := Exec(s, [StartTask, ReadFlag(true), TakeSnapshot(true, |s.table|)]);
            var rounds := LoopSteps(|Processable(s.table, s.now, s.delaySeconds)|);
            Exec(s, BatchSteps(s)) == Do(Exec(begun, rounds), NextRow)
  {
    var opening := [StartTask, ReadFlag(true), TakeSnapshot(true, |s.table|)];
    var rounds := LoopSteps(|Processable(s.table, s.now, s.delaySeconds)|);
    ExecConcat(s, opening, rounds);
    OneMoreStep(s, opening + rounds, NextRow);
  }

  /** With the flag on and no interference, one batch sends each ready row once, in order, and marks it. */
  lemma {:induction false} UndisturbedBatch(s: State)
    requires s.up && !s.cancelled && s.active && s.phase == Idle
    ensures var ready := Processable(s.table, s.now, s.delaySeconds);
            var s' := Exec(s, BatchSteps(s));
            && s'.phase == Idle
            && DeliveredRows(s'.log) == DeliveredRows(s.log) + ready
            && |s'.table| == |s.table|
            && forall r :: 0 <= r < |s.table| ==>
                 s'.table[r] == if Ready(s.table[r], s.now, s.delaySeconds) then s.table[r].(processedAt := Some(s.now))
                                else s.table[r]
  {
    var ready := Processable(s.table, s.now, s.delaySeconds);
    var begun := Exec(s, [StartTask, ReadFlag(true), TakeSnapshot(true, |s.table|)]);
    var looped := Exec(begun, LoopSteps(|ready|));
    Opening(s);
    Loop(begun, begun.phase.batch, |ready|);
    Closing(begun, looped, begun.phase.batch);
    BatchParts(s);
    assert ready[..|ready|] == ready;
  }

  /**
   A held certificate is released when its delay is over: with the flag on and no interference, one batch
   sends and marks exactly the unprocessed rows that were received at least the delay, in seconds of 10^9
   nanoseconds, before now, or that have been overridden. No other row changes.
   */
  lemma {:induction false} ReleasedWhenDue(s: State, r: nat)
    requires s.up && !s.cancelled && s.active && s.phase == Idle && r < |s.table|
    ensures var row := s.table[r];
            var due := row.processedAt.None?
                       && (row.receivedAt + s.delaySeconds * 1_000_000_000 <= s.now || row.overrideSentAt.Some?);
            var s' := Exec(s, BatchSteps(s));
            && |s'.table| == |s.table|
            && s'.table[r] == (if due then row.(processedAt := Some(s.now)) else row)
            && |DeliveredRows(s.log)| <= |DeliveredRows(s'.log)|
            && (due <==> r in DeliveredRows(s'.log)[|DeliveredRows(s.log)|..])
  {
    UndisturbedBatch(s);
    var ready := Processable(s.table, s.now, s.delaySeconds);
    assert (DeliveredRows(s.log) + ready)[|DeliveredRows(s.log)|..] == ready;
  }

  /**
   Nothing held is forgotten over the end of the process: a new one, started with any delay, releases what is
   then due, if releases are on.
   */
  lemma {:induction false} ReleasedAfterRestart(s: State, delaySeconds: int, r: nat)
    requires s.up && s.active && r < |s.table|
    ensures var row := s.table[r];
            var due := row.processedAt.None? && (row.receivedAt + delaySeconds * 1_000_000_000 <= s.now || row.overrideSentAt.Some?);
            var booted := Do(Do(s, Halt), Boot(delaySeconds));
            var s' := Exec(booted, BatchSteps(booted));
            |s'.table| == |s.table| && s'.table[r] == if due then row.(processedAt := Some(s.now)) else row
  {
    var booted := Do(Do(s, Halt), Boot(delaySeconds));
    assert booted.table == s.table && booted.now == s.now && booted.phase == Idle;
    ReleasedWhenDue(booted, r);
  }

  /**
   An override is written to its own row and to no other, and lasts: whatever else happens, the row is
   ready for a batch, whatever its delay, exactly until it is processed.
   */
  lemma {:induction false} OverrideReleases(s: State, row: nat, steps: seq<Step>)
    requires s.up && row < |s.table|
    ensures var t := Do(s, Override(row)).table;
            t == s.table[row := s.table[row].(overrideSentAt := Some(s.now))]
    ensures var s' := Exec(Do(s, Override(row)), steps);
            && row < |s'.table|
            && s'.table[row].overrideSentAt.Some?
            && forall now, delaySeconds ::
                 row in Processable(s'.table, now, delaySeconds) <==> s'.table[row].processedAt.None?
  {
    RowsAreKept(Do(s, Override(row)), steps);
    assert Do(s, Override(row)).table[row].overrideSentAt.Some?;
  }
}
