/**
 The kill and restart endpoints as a step system: three authenticated calls of one kind within a minute
 set the flag.

 Requests run side by side. Each inserts its attempt, prunes the attempt table, counts, and sets the flag
 if it counted at least three; anything may happen between two of these statements, and each of them may
 fail. The database outlives the process. The log records the statements that took effect; an update
 carries the position of the count it relies on. Times are nanoseconds.
 */
module KillSwitch {
  const MINUTE: int := 60_000_000_000

  datatype Kind = Kill | Restart

  datatype Attempt = Attempt(kind: Kind, at: int)

  /** `WHERE attempted_at >= cutoff`. */
  function Since(log: seq<Attempt>, cutoff: int): seq<Attempt> {
    if |log| == 0 then []
    else
      var last := log[|log| - 1];
      var front := Since(log[..|log| - 1], cutoff);
      if last.at >= cutoff then front + [last] else front
  }

  /** `SELECT COUNT(*) ... WHERE attempt_type = kind AND attempted_at >= cutoff`. */
  function CountSince(log: seq<Attempt>, kind: Kind, cutoff: int): nat {
    if |log| == 0 then 0
    else
      var last := log[|log| - 1];
      CountSince(log[..|log| - 1], kind, cutoff) + if last.kind == kind && last.at >= cutoff then 1 else 0
  }

  lemma {:induction false} SinceSince(log: seq<Attempt>, early: int, late: int)
    requires early <= late
    ensures Since(Since(log, early), late) == Since(log, late)
  {
    if |log| > 0 {
      var front, last := log[..|log| - 1], log[|log| - 1];
      SinceSince(front, early, late);
      if last.at >= early {
        SinceSnoc(Since(front, early), last, late);
      }
    }
  }

  lemma {:induction false} SinceSnoc(log: seq<Attempt>, a: Attempt, cutoff: int)
    ensures Since(log + [a], cutoff) == if a.at >= cutoff then Since(log, cutoff) + [a] else Since(log, cutoff)
  {
    assert (log + [a])[..|log|] == log;
  }

  lemma {:induction false} CountOfSince(log: seq<Attempt>, kind: Kind, cutoff: int)
    ensures CountSince(Since(log, cutoff), kind, cutoff) == CountSince(log, kind, cutoff)
  {
    if |log| > 0 {
      var front, last := log[..|log| - 1], log[|log| - 1];
      CountOfSince(front, kind, cutoff);
      if last.at >= cutoff {
        assert Since(log, cutoff)[..|Since(log, cutoff)| - 1] == Since(front, cutoff);
      }
    }
  }

  // ----- The step system ------------------------------------------------------------------------

  datatype Stage =
    | Arrived
    | Recorded
    | Cleaned
    | Counted(countAt: nat)   // at least three attempts were counted, the flag is not set yet
    | Finished

  datatype Request = Request(kind: Kind, stage: Stage)

  datatype Event =
    | Attempted(attempt: Attempt)
    | CountRead(kind: Kind, at: int, count: nat)
    | Updated(kind: Kind, countAt: nat)

  type Log = seq<Event>

  datatype Switch = Switch(now: int, table: seq<Attempt>, active: bool, requests: seq<Request>, log: Log)

  const INIT: Switch := Switch(0, [], true, [], [])

  datatype Step =
    | Tick(elapsed: nat)
    | Arrive(kind: Kind)
    | Insert(k: nat, ok: bool)
    | Prune(k: nat, ok: bool)
    | Tally(k: nat, ok: bool)
    | Update(k: nat, ok: bool)
    | Halt                    // the process ends and another one starts on the same database

  predicate InStage(s: Switch, k: nat, stage: Stage) {
    k < |s.requests| && s.requests[k].stage == stage
  }

  function At(s: Switch, k: nat, stage: Stage): Switch
    requires k < |s.requests|
  {
    s.(requests := s.requests[k := s.requests[k].(stage := stage)])
  }

  /** A failed insert or prune is logged and ignored; a failed count or update ends the request. */
  function Do(s: Switch, step: Step): Switch {
    match step
    case Tick(elapsed) => s.(now := s.now + elapsed)
    case Arrive(kind) => s.(requests := s.requests + [Request(kind, Arrived)])
    case Insert(k, ok) =>
      if !InStage(s, k, Arrived) then s
      else if !ok then At(s, k, Recorded)
      else
        var attempt := Attempt(s.requests[k].kind, s.now);
        At(s, k, Recorded).(table := s.table + [attempt], log := s.log + [Attempted(attempt)])
    case Prune(k, ok) =>
      if !InStage(s, k, Recorded) then s
      else if !ok then At(s, k, Cleaned)
      else At(s, k, Cleaned).(table := Since(s.table, s.now - 5 * MINUTE))
    case Tally(k, ok) =>
      if !InStage(s, k, Cleaned) then s
      else if !ok then At(s, k, Finished)
      else
        var count := CountSince(s.table, s.requests[k].kind, s.now - MINUTE);
        At(s, k, if count >= 3 then Counted(|s.log|) else Finished)
          .(log := s.log + [CountRead(s.requests[k].kind, s.now, count)])
    case Update(k, ok) =>
      if k >= |s.requests| || !s.requests[k].stage.Counted? then s
      else if !ok then At(s, k, Finished)
      else
        At(s, k, Finished).(active := s.requests[k].kind == Restart,
                            log := s.log + [Updated(s.requests[k].kind, s.requests[k].stage.countAt)])
    case Halt => s.(requests := [])
  }

  function Exec(s: Switch, steps: seq<Step>): Switch {
    if |steps| == 0 then s else Do(Exec(s, steps[..|steps| - 1]), steps[|steps| - 1])
  }

  /** Every attempt ever recorded. */
  function History(log: Log): seq<Attempt> {
    if |log| == 0 then []
    else
      var front, last := History(log[..|log| - 1]), log[|log| - 1];
      if last.Attempted? then front + [last.attempt] else front
  }

  /** The kind of the last update. */
  function FlagIn(log: Log): bool {
    if |log| == 0 then true
    else if log[|log| - 1].Updated? then log[|log| - 1].kind == Restart
    else FlagIn(log[..|log| - 1])
  }

  // ----- The invariant --------------------------------------------------------------------------

  /** A count that lets its request set the flag. */
  predicate Reaches(e: Event) {
    e.CountRead? && e.count >= 3
  }

  predicate CountOk(log: Log, p: nat)
    requires p < |log| && log[p].CountRead?
  {
    && log[p].count == CountSince(History(log[..p]), log[p].kind, log[p].at - MINUTE)
    && forall j :: 0 <= j < p && log[j].Attempted? ==> log[j].attempt.at <= log[p].at
  }

  predicate UpdateOk(log: Log, p: nat)
    requires p < |log| && log[p].Updated?
  {
    log[p].countAt < p && Reaches(log[log[p].countAt]) && log[log[p].countAt].kind == log[p].kind
  }

  ghost predicate LogOk(log: Log) {
    && (forall p :: 0 <= p < |log| && log[p].CountRead? ==> CountOk(log, p))
    && (forall p :: 0 <= p < |log| && log[p].Updated? ==> UpdateOk(log, p))
    && (forall p, q :: 0 <= p < q < |log| && log[p].Updated? && log[q].Updated? ==> log[p].countAt != log[q].countAt)
  }

  /** Each request about to set the flag has a count of its own that no update has relied on. */
  ghost predicate RequestsOk(s: Switch) {
    && (forall k :: 0 <= k < |s.requests| && s.requests[k].stage.Counted? ==> PendingOk(s.log, s.requests[k]))
    && (forall k, j :: 0 <= k < j < |s.requests| && s.requests[k].stage.Counted? && s.requests[j].stage.Counted? ==>
                         s.requests[k].stage.countAt != s.requests[j].stage.countAt)
  }

  ghost predicate PendingOk(log: Log, r: Request)
    requires r.stage.Counted?
  {
    && r.stage.countAt < |log| && Reaches(log[r.stage.countAt]) && log[r.stage.countAt].kind == r.kind
    && forall p :: 0 <= p < |log| && log[p].Updated? ==> log[p].countAt != r.stage.countAt
  }

  /** The pruned table and the full history agree on the last five minutes. */
  ghost predicate WindowOk(s: Switch) {
    forall cutoff :: cutoff >= s.now - 5 * MINUTE ==> Since(s.table, cutoff) == Since(History(s.log), cutoff)
  }

  ghost predicate Inv(s: Switch) {
    && WindowOk(s) && LogOk(s.log) && RequestsOk(s)
    && (s.active <==> FlagIn(s.log))
    && forall p :: 0 <= p < |s.log| && s.log[p].Attempted? ==> s.log[p].attempt.at <= s.now
  }

  lemma {:induction false} Snoc(log: Log, e: Event)
    ensures History(log + [e]) == if e.Attempted? then History(log) + [e.attempt] else History(log)
    ensures FlagIn(log + [e]) == if e.Updated? then e.kind == Restart else FlagIn(log)
  {
    assert (log + [e])[..|log|] == log;
  }

  /** What is known of the entries of a log stays known when it grows. */
  lemma {:induction false} LogGrows(log: Log, e: Event)
    requires LogOk(log)
    requires e.CountRead? ==> CountOk(log + [e], |log|)
    requires e.Updated? ==>
               UpdateOk(log + [e], |log|) && forall p :: 0 <= p < |log| && log[p].Updated? ==> log[p].countAt != e.countAt
    ensures LogOk(log + [e])
  {
    var log' := log + [e];
    forall p | 0 <= p < |log'| && log'[p].CountRead?
      ensures CountOk(log', p)
    {
      if p < |log| {
        assert log'[..p] == log[..p];
        assert CountOk(log, p);
      }
    }
    forall p | 0 <= p < |log'| && log'[p].Updated?
      ensures UpdateOk(log', p)
    {
      assert p < |log| ==> UpdateOk(log, p);
    }
  }

  lemma {:induction false} InsertStep(s: Switch, k: nat)
    requires Inv(s) && InStage(s, k, Arrived)
    ensures Inv(Do(s, Insert(k, true)))
  {
    var s' := Do(s, Insert(k, true));
    var attempt := Attempt(s.requests[k].kind, s.now);
    Snoc(s.log, Attempted(attempt));
    LogGrows(s.log, Attempted(attempt));
    forall cutoff | cutoff >= s'.now - 5 * MINUTE
      ensures Since(s'.table, cutoff) == Since(History(s'.log), cutoff)
    {
      SinceSnoc(s.table, attempt, cutoff);
      SinceSnoc(History(s.log), attempt, cutoff);
    }
    PendingKept(s, s', k);
  }

  /** The log grows by an entry that is no update, and one request moves to a stage other than `Counted`. */
  lemma {:induction false} PendingKept(s: Switch, s': Switch, k: nat)
    requires RequestsOk(s) && k < |s.requests| == |s'.requests|
    requires s.log <= s'.log && forall p :: |s.log| <= p < |s'.log| ==> !s'.log[p].Updated?
    requires !s'.requests[k].stage.Counted?
    requires forall j :: 0 <= j < |s.requests| && j != k ==> s'.requests[j] == s.requests[j]
    ensures RequestsOk(s')
  {
    forall j | 0 <= j < |s'.requests| && s'.requests[j].stage.Counted?
      ensures PendingOk(s'.log, s'.requests[j])
    {
      assert PendingOk(s.log, s.requests[j]);
    }
  }

  lemma {:induction false} PruneStep(s: Switch, k: nat)
    requires Inv(s) && InStage(s, k, Recorded)
    ensures Inv(Do(s, Prune(k, true)))
  {
    var s' := Do(s, Prune(k, true));
    forall cutoff | cutoff >= s'.now - 5 * MINUTE
      ensures Since(s'.table, cutoff) == Since(History(s'.log), cutoff)
    {
      SinceSince(s.table, s.now - 5 * MINUTE, cutoff);
    }
    PendingKept(s, s', k);
  }

  /** What a request counts in the pruned table is what it would count in the full history. */
  lemma {:induction false} WindowAgrees(s: Switch, kind: Kind)
    requires WindowOk(s)
    ensures CountSince(s.table, kind, s.now - MINUTE) == CountSince(History(s.log), kind, s.now - MINUTE)
  {
    CountOfSince(s.table, kind, s.now - MINUTE);
    CountOfSince(History(s.log), kind, s.now - MINUTE);
  }

  lemma {:induction false} TallyEntry(s: Switch, kind: Kind)
    requires Inv(s)
    ensures LogOk(s.log + [CountRead(kind, s.now, CountSince(s.table, kind, s.now - MINUTE))])
  {
    var e := CountRead(kind, s.now, CountSince(s.table, kind, s.now - MINUTE));
    WindowAgrees(s, kind);
    assert (s.log + [e])[..|s.log|] == s.log;
    LogGrows(s.log, e);
  }

  lemma {:induction false} TallyStep(s: Switch, k: nat)
    requires Inv(s) && InStage(s, k, Cleaned)
    ensures Inv(Do(s, Tally(k, true)))
  {
    var kind := s.requests[k].kind;
    var e := CountRead(kind, s.now, CountSince(s.table, kind, s.now - MINUTE));
    TallyEntry(s, kind);
    Snoc(s.log, e);
    TallyRequests(s, Do(s, Tally(k, true)), k, e);
  }

  lemma {:induction false} TallyRequests(s: Switch, s': Switch, k: nat, e: Event)
    requires RequestsOk(s) && LogOk(s.log) && k < |s.requests|
    requires e.CountRead? && e.kind == s.requests[k].kind && s'.log == s.log + [e]
    requires s'.requests == s.requests[k := s.requests[k].(stage := if e.count >= 3 then Counted(|s.log|) else Finished)]
    ensures RequestsOk(s')
  {
    forall j | 0 <= j < |s'.requests| && s'.requests[j].stage.Counted?
      ensures PendingOk(s'.log, s'.requests[j])
    {
      if j != k {
        assert PendingOk(s.log, s.requests[j]);
      } else {
        assert forall p :: 0 <= p < |s.log| && s.log[p].Updated? ==> UpdateOk(s.log, p);
      }
    }
    forall i, j | 0 <= i < j < |s'.requests| && s'.requests[i].stage.Counted? && s'.requests[j].stage.Counted?
      ensures s'.requests[i].stage.countAt != s'.requests[j].stage.countAt
    {
      assert i != k ==> PendingOk(s.log, s.requests[i]);
      assert j != k ==> PendingOk(s.log, s.requests[j]);
    }
  }

  lemma {:induction false} UpdateStep(s: Switch, k: nat)
    requires Inv(s) && k < |s.requests| && s.requests[k].stage.Counted?
    ensures Inv(Do(s, Update(k, true)))
  {
    var e := Updated(s.requests[k].kind, s.requests[k].stage.countAt);
    UpdateEntry(s, s.requests[k]);
    Snoc(s.log, e);
    UpdateRequests(s, Do(s, Update(k, true)), k, e);
  }

  lemma {:induction false} UpdateEntry(s: Switch, r: Request)
    requires Inv(s) && r.stage.Counted? && PendingOk(s.log, r)
    ensures LogOk(s.log + [Updated(r.kind, r.stage.countAt)])
  {
    LogGrows(s.log, Updated(r.kind, r.stage.countAt));
  }

  lemma {:induction false} UpdateRequests(s: Switch, s': Switch, k: nat, e: Event)
    requires RequestsOk(s) && k < |s.requests| && s.requests[k].stage.Counted?
    requires e == Updated(s.requests[k].kind, s.requests[k].stage.countAt) && s'.log == s.log + [e]
    requires s'.requests == s.requests[k := s.requests[k].(stage := Finished)]
    ensures RequestsOk(s')
  {
    forall j | 0 <= j < |s'.requests| && s'.requests[j].stage.Counted?
      ensures PendingOk(s'.log, s'.requests[j])
    {
      assert PendingOk(s.log, s.requests[j]);
    }
  }

  lemma FailedStep(s: Switch, k: nat, stage: Stage)
    requires Inv(s) && k < |s.requests| && !stage.Counted?
    ensures Inv(At(s, k, stage))
  {
    PendingKept(s, At(s, k, stage), k);
  }

  lemma StepKeepsInv(s: Switch, step: Step)
    requires Inv(s)
    ensures Inv(Do(s, step))
  {
    if Do(s, step) != s {
      match step {
        case Tick(_) =>
        case Arrive(_) => ArriveStep(s, step);
        case Insert(k, ok) => if ok { InsertStep(s, k); } else { FailedStep(s, k, Recorded); }
        case Prune(k, ok) => if ok { PruneStep(s, k); } else { FailedStep(s, k, Cleaned); }
        case Tally(k, ok) => if ok { TallyStep(s, k); } else { FailedStep(s, k, Finished); }
        case Update(k, ok) => if ok { UpdateStep(s, k); } else { FailedStep(s, k, Finished); }
        case Halt =>
      }
    }
  }

  lemma ArriveStep(s: Switch, step: Step)
    requires Inv(s) && step.Arrive?
    ensures Inv(Do(s, step))
  {
    forall j | 0 <= j < |s.requests| && s.requests[j].stage.Counted?
      ensures PendingOk(s.log, s.requests[j])
    {
    }
  }

  /** The invariant holds after every run. */
  lemma {:induction false} Reachable(steps: seq<Step>)
    ensures Inv(Exec(INIT, steps))
  {
    if |steps| > 0 {
      Reachable(steps[..|steps| - 1]);
      StepKeepsInv(Exec(INIT, steps[..|steps| - 1]), steps[|steps| - 1]);
    }
  }

  // ----- Over all runs --------------------------------------------------------------------------

  /** The entries of the log that record an attempt of a kind, not made before `cutoff`. */
  function AttemptsIn(log: Log, kind: Kind, cutoff: int): set<int> {
    set j | 0 <= j < |log| && log[j].Attempted? && log[j].attempt.kind == kind && log[j].attempt.at >= cutoff
  }

  lemma {:induction false} CountMeaning(log: Log, kind: Kind, cutoff: int)
    ensures CountSince(History(log), kind, cutoff) == |AttemptsIn(log, kind, cutoff)|
  {
    if |log| > 0 {
      var n := |log| - 1;
      CountMeaning(log[..n], kind, cutoff);
      var here := if log[n].Attempted? && log[n].attempt.kind == kind && log[n].attempt.at >= cutoff then {n} else {};
      assert AttemptsIn(log, kind, cutoff) == AttemptsIn(log[..n], kind, cutoff) + here;
      assert n !in AttemptsIn(log[..n], kind, cutoff);
      if log[n].Attempted? {
        CountSnoc(History(log[..n]), log[n].attempt, kind, cutoff);
      }
    }
  }

  /**
   However requests and prunings interleave, every count is the number of attempts of its kind that were
   recorded before it in the minute, of 60 * 10^9 nanoseconds, up to it.
   */
  lemma {:induction false} CountsAreFull(steps: seq<Step>, p: nat)
    requires p < |Exec(INIT, steps).log| && Exec(INIT, steps).log[p].CountRead?
    ensures var log := Exec(INIT, steps).log;
            && log[p].count == |set j | 0 <= j < p && log[j].Attempted? && log[j].attempt.kind == log[p].kind
                                       && log[p].at - 60_000_000_000 <= log[j].attempt.at|
            && forall j :: 0 <= j < p && log[j].Attempted? ==> log[j].attempt.at <= log[p].at
  {
    Reachable(steps);
    var log := Exec(INIT, steps).log;
    assert CountOk(log, p);
    CountMeaning(log[..p], log[p].kind, log[p].at - MINUTE);
    assert AttemptsIn(log[..p], log[p].kind, log[p].at - MINUTE)
        == set j | 0 <= j < p && log[j].Attempted? && log[j].attempt.kind == log[p].kind
                   && log[p].at - 60_000_000_000 <= log[j].attempt.at;
  }

  /** The update at `q` relies on the count at `c`: three attempts of its kind in the minute before it. */
  ghost predicate Backs(log: Log, c: nat, q: nat) {
    && c < q < |log| && log[c].CountRead? && log[q] == Updated(log[c].kind, c)
    && log[c].count == CountSince(History(log[..c]), log[c].kind, log[c].at - MINUTE)
    && log[c].count >= 3
  }

  /** `q` is the last update. */
  predicate LastUpdate(log: Log, q: nat) {
    q < |log| && log[q].Updated? && forall j :: q < j < |log| ==> !log[j].Updated?
  }

  lemma {:induction false} FlagMeaning(log: Log)
    ensures FlagIn(log) <==> forall q: nat :: LastUpdate(log, q) ==> log[q].kind == Restart
  {
    if |log| > 0 {
      var n := |log| - 1;
      if log[n].Updated? {
        assert LastUpdate(log, n);
      } else {
        FlagMeaning(log[..n]);
        assert forall q: nat :: LastUpdate(log, q) <==> LastUpdate(log[..n], q);
      }
    }
  }

  /**
   Releases are stopped exactly when the last update is one of a kill request; and that update relies on a
   count, made before it, of at least three kill attempts in the full history of a minute. No count backs
   two updates. This holds for requests that overlap in any way, failures, and new processes.
   */
  lemma {:induction false} StoppedMeaning(steps: seq<Step>)
    ensures var s := Exec(INIT, steps);
            && (!s.active <==> exists q: nat, c: nat :: LastUpdate(s.log, q) && s.log[q].kind == Kill && Backs(s.log, c, q))
            && (forall q :: 0 <= q < |s.log| && s.log[q].Updated? ==> Backs(s.log, s.log[q].countAt, q))
            && (forall p: nat, q: nat, c: nat :: Backs(s.log, c, p) && Backs(s.log, c, q) ==> p == q)
  {
    var log := Exec(INIT, steps).log;
    Reachable(steps);
    FlagMeaning(log);
    forall q | 0 <= q < |log| && log[q].Updated?
      ensures Backs(log, log[q].countAt, q)
    {
      assert UpdateOk(log, q) && CountOk(log, log[q].countAt);
    }
    if q: nat :| LastUpdate(log, q) && log[q].kind != Restart {
      assert Backs(log, log[q].countAt, q);
    }
  }

  // ----- The last to reach three ----------------------------------------------------------------

  /** The kind of the last count that reached three. */
  function LastToReach(log: Log): bool {
    if |log| == 0 then true
    else if Reaches(log[|log| - 1]) then log[|log| - 1].kind == Restart
    else LastToReach(log[..|log| - 1])
  }

  /** `c` is the last count that reached three. */
  predicate LastReach(log: Log, c: nat) {
    c < |log| && Reaches(log[c]) && forall j :: c < j < |log| ==> !Reaches(log[j])
  }

  lemma {:induction false} LastToReachMeaning(log: Log)
    ensures forall c: nat :: LastReach(log, c) ==> (LastToReach(log) <==> log[c].kind == Restart)
    ensures (forall j :: 0 <= j < |log| ==> !Reaches(log[j])) ==> LastToReach(log)
  {
    if |log| > 0 {
      var n := |log| - 1;
      if !Reaches(log[n]) {
        LastToReachMeaning(log[..n]);
        assert forall c: nat :: LastReach(log, c) ==> LastReach(log[..n], c);
      }
    }
  }

  lemma {:induction false} LastOf(log: Log)
    ensures (exists p :: 0 <= p < |log| && Reaches(log[p])) ==> exists c: nat :: LastReach(log, c)
    ensures (exists p :: 0 <= p < |log| && log[p].Updated?) ==> exists q: nat :: LastUpdate(log, q)
  {
    if |log| > 0 {
      var n := |log| - 1;
      LastOf(log[..n]);
      if Reaches(log[n]) {
        assert LastReach(log, n);
      } else {
        assert forall c: nat :: LastReach(log[..n], c) ==> LastReach(log, c);
        assert forall p :: 0 <= p < n ==> log[..n][p] == log[p];
      }
      if log[n].Updated? {
        assert LastUpdate(log, n);
      } else {
        assert forall q: nat :: LastUpdate(log[..n], q) ==> LastUpdate(log, q);
        assert forall p :: 0 <= p < n ==> log[..n][p] == log[p];
      }
    }
  }

  /** The last update relies on a count of the kind that was the last to reach three; without an update it is a restart. */
  ghost predicate LastKindsAgree(log: Log)
    requires LogOk(log)
  {
    forall c: nat :: LastReach(log, c) ==>
      if exists q: nat :: LastUpdate(log, q) then
        forall q: nat :: LastUpdate(log, q) ==> UpdateOk(log, q) && log[log[q].countAt].kind == log[c].kind
      else log[c].kind == Restart
  }

  /**
   When the flag follows the last kind to reach three, exactly: the count behind the last update is of
   that kind. It covers every run, with requests that overlap, fail or end with their process.
   */
  lemma {:induction false} FollowsLastToReach(steps: seq<Step>)
    ensures LogOk(Exec(INIT, steps).log)
    ensures var s := Exec(INIT, steps);
            (s.active <==> LastToReach(s.log)) <==> LastKindsAgree(s.log)
  {
    Reachable(steps);
    var s := Exec(INIT, steps);
    AgreementOf(s.log);
  }

  lemma {:induction false} AgreementOf(log: Log)
    requires LogOk(log)
    ensures (FlagIn(log) <==> LastToReach(log)) <==> LastKindsAgree(log)
  {
    FlagMeaning(log);
    LastToReachMeaning(log);
    LastOf(log);
    if c: nat :| LastReach(log, c) {
      if q: nat :| LastUpdate(log, q) {
        assert UpdateOk(log, q);
        assert forall p: nat :: LastUpdate(log, p) ==> p == q;
        assert forall d: nat :: LastReach(log, d) ==> d == c;
      }
    } else {
      assert forall p :: 0 <= p < |log| && log[p].Updated? ==> UpdateOk(log, p);
    }
  }

  /** No count of the other kind reaches three between the count behind `q` and `q` itself. */
  predicate NotOvertaken(log: Log, q: nat)
    requires q < |log| && log[q].Updated?
  {
    forall j :: log[q].countAt < j < q && Reaches(log[j]) ==> log[j].kind == log[q].kind
  }

  /** The last count to reach three has set the flag, and the last update was not overtaken on its way. */
  ghost predicate Undisturbed(log: Log) {
    && (forall c: nat :: LastReach(log, c) ==> exists q :: c < q < |log| && log[q] == Updated(log[c].kind, c))
    && (forall q: nat :: LastUpdate(log, q) ==> NotOvertaken(log, q))
  }

  /**
   The flag follows the last kind to reach three, whatever else overlaps or has ever failed, if the request
   that was last to reach three has set the flag and the last to set it was not overtaken by the other kind.
   */
  lemma {:induction false} LastToReachDecides(steps: seq<Step>)
    requires Undisturbed(Exec(INIT, steps).log)
    ensures Exec(INIT, steps).active <==> LastToReach(Exec(INIT, steps).log)
  {
    var log := Exec(INIT, steps).log;
    Reachable(steps);
    FollowsLastToReach(steps);
    LastOf(log);
    forall c: nat, q: nat | LastReach(log, c) && LastUpdate(log, q)
      ensures log[log[q].countAt].kind == log[c].kind
    {
      UndisturbedAgrees(log, c, q);
    }
  }

  lemma {:induction false} UndisturbedAgrees(log: Log, c: nat, q: nat)
    requires LogOk(log) && Undisturbed(log)
    requires LastReach(log, c) && LastUpdate(log, q)
    ensures UpdateOk(log, q) && log[log[q].countAt].kind == log[c].kind
  {
    assert UpdateOk(log, q);
    var p :| c < p < |log| && log[p] == Updated(log[c].kind, c);
    assert p <= q && log[q].countAt <= c;
    assert NotOvertaken(log, q);
  }

  // ----- Overlapping requests -------------------------------------------------------------------

  lemma {:induction false} OneMoreStep(s: Switch, steps: seq<Step>, step: Step)
    ensures Exec(s, steps + [step]) == Do(Exec(s, steps), step)
  {
    assert (steps + [step])[..|steps|] == steps;
  }

  function KindOf(n: int): Kind {
    if n < 3 then Kill else Restart
  }

  /** The first `n` of three kill and three restart requests arrive and insert their attempts. */
  function Calls(n: nat): seq<Step> {
    if n == 0 then [] else Calls(n - 1) + [Arrive(KindOf(n - 1))] + [Insert(n - 1, true)]
  }

  function Attempts(n: nat): seq<Attempt> {
    seq(n, k => Attempt(KindOf(k), 0))
  }

  function Called(n: nat): Switch {
    INIT.(requests := seq(n, k => Request(KindOf(k), Recorded)),
          table := Attempts(n),
          log := seq(n, k => Attempted(Attempt(KindOf(k), 0))))
  }

  lemma NextCall(n: nat)
    ensures Do(Do(Called(n), Arrive(KindOf(n))), Insert(n, true)) == Called(n + 1)
  {
    var s, t := Called(n), Called(n + 1);
    assert t.table == s.table + [Attempt(KindOf(n), 0)];
    assert t.log == s.log + [Attempted(Attempt(KindOf(n), 0))];
    assert t.requests == (s.requests + [Request(KindOf(n), Arrived)])[n := Request(KindOf(n), Recorded)];
  }

  lemma {:induction false} CallsLead(n: nat)
    ensures Exec(INIT, Calls(n)) == Called(n)
  {
    if n > 0 {
      CallsLead(n - 1);
      OneMoreStep(INIT, Calls(n - 1), Arrive(KindOf(n - 1)));
      OneMoreStep(INIT, Calls(n - 1) + [Arrive(KindOf(n - 1))], Insert(n - 1, true));
      NextCall(n - 1);
    }
  }

  lemma {:induction false} CountSnoc(log: seq<Attempt>, a: Attempt, kind: Kind, cutoff: int)
    ensures CountSince(log + [a], kind, cutoff)
         == CountSince(log, kind, cutoff) + if a.kind == kind && a.at >= cutoff then 1 else 0
  {
    assert (log + [a])[..|log|] == log;
  }

  lemma {:induction false} AttemptsCount(n: nat, kind: Kind)
    ensures Since(Attempts(n), -5 * MINUTE) == Attempts(n)
    ensures CountSince(Attempts(n), kind, -MINUTE)
         == if kind == Kill then (if n < 3 then n else 3) else if n < 3 then 0 else n - 3
  {
    if n > 0 {
      var a := Attempt(KindOf(n - 1), 0);
      AttemptsCount(n - 1, kind);
      assert Attempts(n) == Attempts(n - 1) + [a];
      SinceSnoc(Attempts(n - 1), a, -5 * MINUTE);
      CountSnoc(Attempts(n - 1), a, kind, -MINUTE);
    }
  }

  /** A kill and a restart request overlap: the kill request counts first and sets the flag last. */
  function Overlap(i: nat, j: nat): seq<Step> {
    [Prune(i, true)] + [Prune(j, true)] + [Tally(i, true)] + [Tally(j, true)] + [Update(j, true)] + [Update(i, true)]
  }

  lemma {:induction false} ThenOverlap(s: Switch, steps: seq<Step>, i: nat, j: nat)
    ensures Exec(s, steps + Overlap(i, j))
         == Do(Do(Do(Do(Do(Do(Exec(s, steps), Prune(i, true)), Prune(j, true)), Tally(i, true)), Tally(j, true)),
                  Update(j, true)), Update(i, true))
  {
    var s1 := steps + [Prune(i, true)];
    var s2 := s1 + [Prune(j, true)];
    var s3 := s2 + [Tally(i, true)];
    var s4 := s3 + [Tally(j, true)];
    var s5 := s4 + [Update(j, true)];
    assert steps + Overlap(i, j) == s5 + [Update(i, true)];
    OneMoreStep(s, steps, Prune(i, true));
    OneMoreStep(s, s1, Prune(j, true));
    OneMoreStep(s, s2, Tally(i, true));
    OneMoreStep(s, s3, Tally(j, true));
    OneMoreStep(s, s4, Update(j, true));
    OneMoreStep(s, s5, Update(i, true));
  }

  lemma {:induction false} LastToReachSnoc(log: Log, e: Event)
    ensures LastToReach(log + [e]) == if Reaches(e) then e.kind == Restart else LastToReach(log)
  {
    assert (log + [e])[..|log|] == log;
  }

  /** Both requests prune and count. */
  lemma {:induction false} BothCount(s: Switch, i: nat, j: nat)
    requires i < |s.requests| && j < |s.requests| && i != j
    requires s.requests[i] == Request(Kill, Recorded) && s.requests[j] == Request(Restart, Recorded)
    requires Since(s.table, s.now - 5 * MINUTE) == s.table
    requires CountSince(s.table, Kill, s.now - MINUTE) >= 3 && CountSince(s.table, Restart, s.now - MINUTE) >= 3
    ensures var s' := Do(Do(Do(Do(s, Prune(i, true)), Prune(j, true)), Tally(i, true)), Tally(j, true));
            && |s'.requests| == |s.requests|
            && s'.requests[i] == Request(Kill, Counted(|s.log|)) && s'.requests[j] == Request(Restart, Counted(|s.log| + 1))
            && LastToReach(s'.log)
  {
    var pruned := s.(requests := s.requests[i := Request(Kill, Cleaned)][j := Request(Restart, Cleaned)]);
    BothPrune(s, i, j);
    OneCounts(pruned, i);
    var first := CountRead(Kill, s.now, CountSince(s.table, Kill, s.now - MINUTE));
    var second := CountRead(Restart, s.now, CountSince(s.table, Restart, s.now - MINUTE));
    OneCounts(At(pruned, i, Counted(|s.log|)).(log := s.log + [first]), j);
    LastToReachSnoc(s.log + [first], second);
  }

  lemma {:induction false} BothPrune(s: Switch, i: nat, j: nat)
    requires InStage(s, i, Recorded) && InStage(s, j, Recorded) && i != j
    requires Since(s.table, s.now - 5 * MINUTE) == s.table
    ensures Do(Do(s, Prune(i, true)), Prune(j, true))
         == s.(requests := s.requests[i := Request(s.requests[i].kind, Cleaned)][j := Request(s.requests[j].kind, Cleaned)])
  {
  }

  lemma {:induction false} OneCounts(s: Switch, k: nat)
    requires InStage(s, k, Cleaned) && CountSince(s.table, s.requests[k].kind, s.now - MINUTE) >= 3
    ensures Do(s, Tally(k, true))
         == At(s, k, Counted(|s.log|)).(log := s.log + [CountRead(s.requests[k].kind, s.now,
                                                                  CountSince(s.table, s.requests[k].kind, s.now - MINUTE))])
  {
  }

  lemma {:induction false} KillUpdatesLast(s: Switch, i: nat, j: nat, c: nat, d: nat)
    requires i < |s.requests| && j < |s.requests| && i != j
    requires s.requests[i] == Request(Kill, Counted(c)) && s.requests[j] == Request(Restart, Counted(d))
    ensures var s' := Do(Do(s, Update(j, true)), Update(i, true));
            !s'.active && LastToReach(s'.log) == LastToReach(s.log)
  {
    LastToReachSnoc(s.log, Updated(Restart, d));
    LastToReachSnoc(s.log + [Updated(Restart, d)], Updated(Kill, c));
  }

  /**
   A request overtaken on its way: here the last to reach three is a restart request, and yet releases
   are stopped.
   */
  lemma LateKill()
    ensures var s := Exec(INIT, Calls(6) + Overlap(2, 5));
            !s.active && LastToReach(s.log)
  {
    var s := Called(6);
    CallsLead(6);
    AttemptsCount(6, Kill);
    AttemptsCount(6, Restart);
    ThenOverlap(INIT, Calls(6), 2, 5);
    BothCount(s, 2, 5);
    var counted := Do(Do(Do(Do(s, Prune(2, true)), Prune(5, true)), Tally(2, true)), Tally(5, true));
    KillUpdatesLast(counted, 2, 5, 6, 7);
  }

  /** One request after the other, but the second ends between its count and its update. */
  function Interrupted(i: nat, j: nat, end: Step): seq<Step> {
    [Prune(i, true)] + [Tally(i, true)] + [Update(i, true)] + [Prune(j, true)] + [Tally(j, true)] + [end]
  }

  lemma {:induction false} ThenInterrupted(s: Switch, steps: seq<Step>, i: nat, j: nat, end: Step)
    ensures Exec(s, steps + Interrupted(i, j, end))
         == Do(Do(Do(Do(Do(Do(Exec(s, steps), Prune(i, true)), Tally(i, true)), Update(i, true)), Prune(j, true)),
                  Tally(j, true)), end)
  {
    var s1 := steps + [Prune(i, true)];
    var s2 := s1 + [Tally(i, true)];
    var s3 := s2 + [Update(i, true)];
    var s4 := s3 + [Prune(j, true)];
    var s5 := s4 + [Tally(j, true)];
    assert steps + Interrupted(i, j, end) == s5 + [end];
    OneMoreStep(s, steps, Prune(i, true));
    OneMoreStep(s, s1, Tally(i, true));
    OneMoreStep(s, s2, Update(i, true));
    OneMoreStep(s, s3, Prune(j, true));
    OneMoreStep(s, s4, Tally(j, true));
    OneMoreStep(s, s5, end);
  }

  /** One request prunes and counts. */
  lemma {:induction false} PruneAndCount(s: Switch, k: nat)
    requires InStage(s, k, Recorded) && Since(s.table, s.now - 5 * MINUTE) == s.table
    requires CountSince(s.table, s.requests[k].kind, s.now - MINUTE) >= 3
    ensures var e := CountRead(s.requests[k].kind, s.now, CountSince(s.table, s.requests[k].kind, s.now - MINUTE));
            Do(Do(s, Prune(k, true)), Tally(k, true)) == At(s, k, Counted(|s.log|)).(log := s.log + [e])
  {
    var pruned := At(s, k, Cleaned);
    assert Do(s, Prune(k, true)) == pruned;
    OneCounts(pruned, k);
    assert At(pruned, k, Counted(|s.log|)) == At(s, k, Counted(|s.log|));
  }

  lemma {:induction false} KillAlone(s: Switch, i: nat)
    requires InStage(s, i, Recorded) && s.requests[i].kind == Kill
    requires Since(s.table, s.now - 5 * MINUTE) == s.table && CountSince(s.table, Kill, s.now - MINUTE) >= 3
    ensures var s' := Do(Do(Do(s, Prune(i, true)), Tally(i, true)), Update(i, true));
            && !s'.active && s'.table == s.table && s'.now == s.now
            && s'.requests == s.requests[i := Request(Kill, Finished)]
  {
    PruneAndCount(s, i);
  }

  lemma {:induction false} LostRequest(s: Switch, j: nat, end: Step)
    requires InStage(s, j, Recorded) && s.requests[j].kind == Restart && !s.active
    requires Since(s.table, s.now - 5 * MINUTE) == s.table && CountSince(s.table, Restart, s.now - MINUTE) >= 3
    requires end == Update(j, false) || end == Halt
    ensures var s' := Do(Do(Do(s, Prune(j, true)), Tally(j, true)), end);
            !s'.active && LastToReach(s'.log)
  {
    PruneAndCount(s, j);
    LastToReachSnoc(s.log, CountRead(Restart, s.now, CountSince(s.table, Restart, s.now - MINUTE)));
  }

  lemma {:induction false} InterruptedStops(s: Switch, i: nat, j: nat, end: Step)
    requires i < |s.requests| && j < |s.requests| && i != j
    requires s.requests[i] == Request(Kill, Recorded) && s.requests[j] == Request(Restart, Recorded)
    requires Since(s.table, s.now - 5 * MINUTE) == s.table
    requires CountSince(s.table, Kill, s.now - MINUTE) >= 3 && CountSince(s.table, Restart, s.now - MINUTE) >= 3
    requires end == Update(j, false) || end == Halt
    ensures var s' := Do(Do(Do(Do(Do(Do(s, Prune(i, true)), Tally(i, true)), Update(i, true)), Prune(j, true)),
                            Tally(j, true)), end);
            !s'.active && LastToReach(s'.log)
  {
    KillAlone(s, i);
    LostRequest(Do(Do(Do(s, Prune(i, true)), Tally(i, true)), Update(i, true)), j, end);
  }

  /**
   Nothing overlaps, and yet releases are stopped although the last to reach three is a restart request:
   its update fails, or its process ends before it.
   */
  lemma LostRestart(end: Step)
    requires end == Update(5, false) || end == Halt
    ensures var s := Exec(INIT, Calls(6) + Interrupted(2, 5, end));
            !s.active && LastToReach(s.log)
  {
    CallsLead(6);
    AttemptsCount(6, Kill);
    AttemptsCount(6, Restart);
    ThenInterrupted(INIT, Calls(6), 2, 5, end);
    InterruptedStops(Called(6), 2, 5, end);
  }
}
