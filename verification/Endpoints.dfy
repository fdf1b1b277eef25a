/**
 `handleKillSwitch` and `handleRestart` as the program runs them, inside the step system of `KillSwitch`.

 Between any two of its statements other requests take any steps they like, as `env` says. The handler's
 own control flow uses only its local variables and what its calls return.
 */
module Endpoints {
  import opened KillSwitch

  /** What the others do before a statement of the request, and whether that statement succeeds. */
  datatype Moment = Moment(others: seq<Step>, ok: bool)

  /** A step of the clock or of another request than `k`. */
  predicate IsOther(step: Step, k: nat) {
    match step
    case Tick(_) => true
    case Arrive(_) => true
    case Insert(j, _) => j != k
    case Prune(j, _) => j != k
    case Tally(j, _) => j != k
    case Update(j, _) => j != k
    case Halt => false
  }

  ghost predicate OthersOnly(env: nat -> Moment, k: nat) {
    forall n: nat, m :: 0 <= m < |env(n).others| ==> IsOther(env(n).others[m], k)
  }

  /** A run continued within one process. */
  ghost predicate Continues(before: seq<Step>, after: seq<Step>) {
    before <= after && forall m :: |before| <= m < |after| ==> !after[m].Halt?
  }

  /** What the caller is told. */
  datatype Reply =
    | Attempts(count: nat)    // not enough attempts yet
    | FlagSet                 // the scheduler has been stopped or restarted
    | Error

  /** The entry `c` is a count of `kind`, and it is that of the full history of its minute. */
  ghost predicate CountedAt(log: Log, c: nat, kind: Kind, count: nat) {
    && c < |log| && log[c].CountRead? && log[c].kind == kind && log[c].count == count
    && count == CountSince(History(log[..c]), kind, log[c].at - MINUTE)
  }

  lemma CountedKept(log: Log, log': Log, c: nat, kind: Kind, count: nat)
    requires CountedAt(log, c, kind, count) && log <= log'
    ensures CountedAt(log', c, kind, count)
  {
    assert log'[..c] == log[..c];
  }

  lemma OtherKeepsRequest(s: Switch, step: Step, k: nat)
    requires k < |s.requests| && IsOther(step, k)
    ensures var s' := Do(s, step);
            k < |s'.requests| && s'.requests[k] == s.requests[k] && s.log <= s'.log && s'.now >= s.now
  {
  }

  lemma {:induction false} OthersKeepRequest(s: Switch, steps: seq<Step>, k: nat)
    requires k < |s.requests| && forall m :: 0 <= m < |steps| ==> IsOther(steps[m], k)
    ensures var s' := Exec(s, steps);
            k < |s'.requests| && s'.requests[k] == s.requests[k] && s.log <= s'.log && s'.now >= s.now
  {
    if |steps| > 0 {
      OthersKeepRequest(s, steps[..|steps| - 1], k);
      OtherKeepsRequest(Exec(s, steps[..|steps| - 1]), steps[|steps| - 1], k);
    }
  }

  lemma {:induction false} ExecConcat(s: Switch, a: seq<Step>, b: seq<Step>)
    ensures Exec(s, a + b) == Exec(Exec(s, a), b)
  {
    if |b| == 0 {
      assert a + b == a;
    } else {
      assert (a + b)[..|a + b| - 1] == a + b[..|b| - 1];
      ExecConcat(s, a, b[..|b| - 1]);
    }
  }

  /** The entry `p` records an attempt of `kind` made since `start`. */
  predicate AttemptAt(log: Log, p: nat, kind: Kind, start: int) {
    p < |log| && log[p].Attempted? && log[p].attempt.kind == kind && log[p].attempt.at >= start
  }

  /** Three attempts of a kind since `start` make every count within a minute of `start` reach three. */
  lemma ThreeCounted(log: Log, c: nat, kind: Kind, count: nat, start: int, p: nat, q: nat, r: nat)
    requires CountedAt(log, c, kind, count) && p < q < r < c
    requires AttemptAt(log, p, kind, start) && AttemptAt(log, q, kind, start) && AttemptAt(log, r, kind, start)
    requires log[c].at <= start + 60_000_000_000
    ensures count >= 3
  {
    var counted := AttemptsIn(log[..c], kind, log[c].at - MINUTE);
    CountMeaning(log[..c], kind, log[c].at - MINUTE);
    var three: set<int> := {p, q, r};
    assert three <= counted;
    assert |counted| == |three| + |counted - three|;
  }

  lemma {:induction false} SinceMembers(table: seq<Attempt>, cutoff: int)
    ensures forall a :: a in Since(table, cutoff) <==> a in table && a.at >= cutoff
  {
    if |table| > 0 {
      var n := |table| - 1;
      SinceMembers(table[..n], cutoff);
      assert table == table[..n] + [table[n]];
    }
  }

  class Handler {
    var world: Switch
    var turn: nat
    ghost var trace: seq<Step>

    /** The world is where the steps taken so far have led from the empty database. */
    ghost predicate Valid()
      reads this
    {
      world == Exec(INIT, trace)
    }

    constructor ()
      ensures Valid() && trace == []
    {
      world, turn, trace := INIT, 0, [];
    }

    method Interleave(env: nat -> Moment, k: nat)
      requires Valid() && OthersOnly(env, k) && k < |world.requests|
      modifies this
      ensures Valid() && Continues(old(trace), trace)
      ensures k < |world.requests| && world.requests[k] == old(world.requests[k])
      ensures old(world.log) <= world.log && world.now >= old(world.now) && turn == old(turn)
    {
      OthersKeepRequest(world, env(turn).others, k);
      ExecConcat(INIT, trace, env(turn).others);
      world := Exec(world, env(turn).others);
      trace := trace + env(turn).others;
    }

    method Take(step: Step)
      requires Valid()
      modifies this
      ensures Valid() && trace == old(trace) + [step] && world == Do(old(world), step) && turn == old(turn) + 1
    {
      OneMoreStep(INIT, trace, step);
      world := Do(world, step);
      trace := trace + [step];
      turn := turn + 1;
    }

    /** `RecordKillSwitchAttempt`; an error is logged and ignored. */
    method Record(k: nat, ok: bool)
      requires Valid() && InStage(world, k, Arrived)
      modifies this
      ensures Valid() && Continues(old(trace), trace) && turn == old(turn) + 1
      ensures k < |world.requests| && world.requests[k] == Request(old(world.requests[k]).kind, Recorded)
      ensures world.now == old(world.now)
      ensures world.log == if ok then old(world.log) + [Attempted(Attempt(world.requests[k].kind, world.now))] else old(world.log)
      ensures world.table == if ok then old(world.table) + [Attempt(world.requests[k].kind, world.now)] else old(world.table)
    {
      Take(Insert(k, ok));
    }

    /** `CleanupOldKillSwitchAttempts` keeps what is at most five minutes old; an error is logged and ignored. */
    method Cleanup(k: nat, ok: bool)
      requires Valid() && InStage(world, k, Recorded)
      modifies this
      ensures Valid() && Continues(old(trace), trace) && turn == old(turn) + 1
      ensures k < |world.requests| && world.requests[k] == Request(old(world.requests[k]).kind, Cleaned)
      ensures world.now == old(world.now) && world.log == old(world.log)
      ensures forall a :: a in world.table <==> a in old(world.table) && (ok ==> a.at >= world.now - 300_000_000_000)
    {
      SinceMembers(world.table, world.now - 5 * MINUTE);
      Take(Prune(k, ok));
    }

    /** `GetRecentKillSwitchAttempts`: the count of the full history of the last minute; an error ends the request. */
    method CountRecent(k: nat, ok: bool) returns (count: nat)
      requires Valid() && InStage(world, k, Cleaned)
      modifies this
      ensures Valid() && Continues(old(trace), trace) && old(world.log) <= world.log && turn == old(turn) + 1
      ensures k < |world.requests| && world.requests[k].kind == old(world.requests[k]).kind
      ensures world.now == old(world.now)
      ensures ok ==> |world.log| == |old(world.log)| + 1 && CountedAt(world.log, |old(world.log)|, world.requests[k].kind, count)
                     && world.log[|old(world.log)|].at == world.now
      ensures world.requests[k].stage == if ok && count >= 3 then Counted(|old(world.log)|) else Finished
    {
      KillSwitch.Reachable(trace);
      WindowAgrees(world, world.requests[k].kind);
      count := CountSince(world.table, world.requests[k].kind, world.now - MINUTE);
      ghost var log := world.log;
      Take(Tally(k, ok));
      assert ok ==> world.log[..|log|] == log;
    }

    /** `SetSchedulerStatus`; an error ends the request. */
    method SetFlag(k: nat, ok: bool)
      requires Valid() && k < |world.requests| && world.requests[k].stage.Counted?
      modifies this
      ensures Valid() && Continues(old(trace), trace) && turn == old(turn) + 1
      ensures |world.requests| == |old(world.requests)|
      ensures world.now == old(world.now)
      ensures var r := old(world.requests[k]);
              && world.active == (if ok then r.kind == Restart else old(world.active))
              && world.log == if ok then old(world.log) + [Updated(r.kind, r.stage.countAt)] else old(world.log)
    {
      Take(Update(k, ok));
    }

    /** A request arrives and its attempt is recorded, at the log position `p` if that succeeds. */
    method Enter(kind: Kind, env: nat -> Moment) returns (ghost p: nat)
      requires Valid() && OthersOnly(env, |world.requests|)
      modifies this
      ensures Valid() && Continues(old(trace), trace) && turn == old(turn) + 2
      ensures old(world.log) <= world.log && world.now >= old(world.now)
      ensures var k := |old(world.requests)|; k < |world.requests| && world.requests[k] == Request(kind, Recorded)
      ensures env(old(turn) + 1).ok ==> |old(world.log)| <= p && AttemptAt(world.log, p, kind, old(world.now))
    {
      var k := |world.requests|;
      Take(Arrive(kind));
      Interleave(env, k);
      p := |world.log|;
      Record(k, env(turn).ok);
    }

    /** The request up to its count. */
    method CountAttempts(kind: Kind, env: nat -> Moment) returns (ok: bool, count: nat, ghost c: nat, ghost p: nat)
      requires Valid() && OthersOnly(env, |world.requests|)
      modifies this
      ensures Valid() && Continues(old(trace), trace) && turn == old(turn) + 4
      ensures old(world.log) <= world.log && world.now >= old(world.now)
      ensures var k := |old(world.requests)|;
              && k < |world.requests| && world.requests[k].kind == kind
              && world.requests[k].stage == if ok && count >= 3 then Counted(c) else Finished
      ensures ok == env(old(turn) + 3).ok
      ensures ok ==> |old(world.log)| <= c && CountedAt(world.log, c, kind, count) && world.log[c].at <= world.now
      ensures ok && env(old(turn) + 1).ok ==> |old(world.log)| <= p < c && AttemptAt(world.log, p, kind, old(world.now))
    {
      var k := |world.requests|;
      p := Enter(kind, env);
      Interleave(env, k);
      Cleanup(k, env(turn).ok);
      Interleave(env, k);
      c := |world.log|;
      ok := env(turn).ok;
      count := CountRecent(k, ok);
    }

    /**
     One request. Its statements are insert, prune, count and, for a count of at least three, the update.
     If the insert succeeds its attempt is in the log, at `p`, before the count. The count, at `c`, is that
     of the full history of its minute. An error is answered iff the count or a needed update failed;
     otherwise a count of at least three sets the flag, by an update that relies on it, and a smaller one is
     told to the caller.
     */
    method Handle(kind: Kind, env: nat -> Moment) returns (reply: Reply, ghost c: nat, ghost p: nat)
      requires Valid() && OthersOnly(env, |world.requests|)
      modifies this
      ensures Valid() && Continues(old(trace), trace)
      ensures old(world.log) <= world.log && world.now >= old(world.now)
      ensures |world.requests| > |old(world.requests)|
      ensures env(old(turn) + 3).ok ==>
                && |old(world.log)| <= c < |world.log| && world.log[c].CountRead? && world.log[c].at <= world.now
                && CountedAt(world.log, c, kind, world.log[c].count)
                && (env(old(turn) + 1).ok ==> |old(world.log)| <= p < c && AttemptAt(world.log, p, kind, old(world.now)))
      ensures reply.Error? <==>
                !env(old(turn) + 3).ok || (world.log[c].count >= 3 && !env(old(turn) + 4).ok)
      ensures reply.Attempts? ==> reply.count == world.log[c].count < 3
      ensures reply.FlagSet? ==>
                && world.log[c].count >= 3 && world.active == (kind == Restart)
                && world.log[|world.log| - 1] == Updated(kind, c)
    {
      var k := |world.requests|;
      var ok, count;
      ok, count, c, p := CountAttempts(kind, env);
      if !ok {
        reply := Error;
      } else if count < 3 {
        reply := Attempts(count);
      } else {
        reply := RaiseFlag(kind, env, k, c, count);
      }
    }

    method RaiseFlag(kind: Kind, env: nat -> Moment, k: nat, ghost c: nat, ghost count: nat) returns (reply: Reply)
      requires Valid() && OthersOnly(env, k) && k < |world.requests|
      requires world.requests[k] == Request(kind, Counted(c)) && CountedAt(world.log, c, kind, count)
      modifies this
      ensures Valid() && Continues(old(trace), trace)
      ensures old(world.log) <= world.log && world.now >= old(world.now) && k < |world.requests|
      ensures CountedAt(world.log, c, kind, count)
      ensures reply == if env(old(turn)).ok then FlagSet else Error
      ensures reply.FlagSet? ==> world.active == (kind == Restart) && world.log[|world.log| - 1] == Updated(kind, c)
    {
      ghost var counted := world.log;
      Interleave(env, k);
      var ok := env(turn).ok;
      SetFlag(k, ok);
      CountedKept(counted, world.log, c, kind, count);
      reply := if ok then FlagSet else Error;
    }

    /**
     Three requests of one kind, one after the other, in which every call succeeds: if they all happen
     within a minute, the last sets the flag. Other requests that have arrived before may do anything in
     between, and new ones may arrive.
     */
    method ThreeRequests(kind: Kind, env: nat -> Moment) returns (reply: Reply)
      requires Valid() && forall k: nat :: k >= |world.requests| ==> OthersOnly(env, k)
      requires forall n: nat :: env(n).ok
      modifies this
      ensures Valid() && Continues(old(trace), trace)
      ensures world.now <= old(world.now) + 60_000_000_000 ==> reply == FlagSet && world.active == (kind == Restart)
    {
      ghost var start := world.now;
      ghost var c, p, q, r;
      reply, c, p := Handle(kind, env);
      ghost var first := world.log;
      reply, c, q := Handle(kind, env);
      ghost var second := world.log;
      reply, c, r := Handle(kind, env);
      assert world.log[p] == first[p] && world.log[q] == second[q];
      if world.now <= start + 60_000_000_000 {
        ThreeCounted(world.log, c, kind, world.log[c].count, start, p, q, r);
      }
    }
  }
}
