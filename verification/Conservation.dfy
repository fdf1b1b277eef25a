/** Submissions over every run: each accepted one is forwarded once or held once. */
module Conservation {
  import opened Wrappers
  import opened Bytes
  import opened CertificateTable
  import opened Lifecycle
  import opened Safety

  function Times(list: seq<nat>, k: nat): nat {
    multiset(list)[k]
  }

  predicate RowOf(row: Row, c: Submission) {
    row.rawProto == c.rawProto && row.certId == c.certId && row.metadata == c.metadata
  }

  predicate SubmissionOk(s: State, k: nat)
    requires k < |s.submissions|
  {
    var c := s.submissions[k];
    var rows, forwards := Times(s.origin, k), Times(s.forwarded, k);
    && (if c.hold then forwards == 0 else rows == 0)
    && match c.phase
       case Deciding => rows + forwards == 0
       case Forwarded => rows + forwards == 0 && !c.hold
       case ForwardAcked => forwards == 1
       case Held(r) => rows == 1 && r < |s.origin| && s.origin[r] == k
       case Returned => rows + forwards == 1
       case Gone => rows + forwards <= 1
  }

  ghost predicate Accounted(s: State) {
    && |s.origin| == |s.table|
    && (forall r :: 0 <= r < |s.origin| ==> s.origin[r] < |s.submissions| && RowOf(s.table[r], s.submissions[s.origin[r]]))
    && (forall j :: 0 <= j < |s.forwarded| ==> s.forwarded[j] < |s.submissions|)
    && (forall k :: 0 <= k < |s.submissions| ==> SubmissionOk(s, k))
  }

  lemma NewSubmission(s: State, s': State)
    requires Accounted(s)
    requires |s'.submissions| == |s.submissions| + 1 && s'.submissions[..|s.submissions|] == s.submissions
    requires s'.submissions[|s.submissions|].phase == Deciding
    requires s' == s.(submissions := s'.submissions)
    ensures Accounted(s')
  {
    var n := |s.submissions|;
    assert n !in multiset(s.origin) && n !in multiset(s.forwarded);
    forall k | 0 <= k <= n
      ensures SubmissionOk(s', k)
    {
      assert k < n ==> SubmissionOk(s, k) && s'.submissions[k] == s.submissions[k];
    }
  }

  lemma StoreStep(s: State, k: nat)
    requires Accounted(s)
    ensures Accounted(Serve(s, Store(k)))
  {
    var s' := Serve(s, Store(k));
    if s' != s {
      assert multiset(s'.origin) == multiset(s.origin) + multiset{k};
      forall j | 0 <= j < |s'.submissions|
        ensures SubmissionOk(s', j)
      {
        assert SubmissionOk(s, j);
      }
    }
  }

  lemma ForwardAnswerStep(s: State, k: nat)
    requires Accounted(s)
    ensures Accounted(Serve(s, ForwardAnswer(k)))
  {
    var s' := Serve(s, ForwardAnswer(k));
    if s' != s {
      assert multiset(s'.forwarded) == multiset(s.forwarded) + multiset{k};
      forall j | 0 <= j < |s'.submissions|
        ensures SubmissionOk(s', j)
      {
        assert SubmissionOk(s, j);
      }
    }
  }

  /** Only the phase of one submission changes. */
  lemma PhaseOnly(s: State, k: nat, phase: SubmissionPhase)
    requires Accounted(s) && k < |s.submissions|
    requires SubmissionOk(WithSubmission(s, k, phase), k)
    ensures Accounted(WithSubmission(s, k, phase))
  {
    var s' := WithSubmission(s, k, phase);
    forall j | 0 <= j < |s'.submissions|
      ensures SubmissionOk(s', j)
    {
      assert SubmissionOk(s, j);
    }
  }

  lemma SubmissionStep(s: State, step: Step)
    requires Accounted(s) && IsSubmission(step)
    ensures Accounted(Do(s, step))
  {
    match step
    case Submit(_, _, _, _) =>
      if s.up {
        NewSubmission(s, Do(s, step));
      }
    case Store(k) => StoreStep(s, k);
    case ForwardAnswer(k) => ForwardAnswerStep(s, k);
    case Forward(k) =>
      if Do(s, step) != s {
        assert SubmissionOk(s, k);
        PhaseOnly(s, k, Forwarded);
      }
    case Return(k) =>
      if Do(s, step) != s {
        assert SubmissionOk(s, k);
        PhaseOnly(s, k, Returned);
      }
  }

  lemma OtherFrame(s: State, step: Step)
    ensures Schedule(s, step) == s.(phase := Schedule(s, step).phase, table := Schedule(s, step).table, log := Schedule(s, step).log)
    ensures |Schedule(s, step).table| == |s.table|
    ensures var s' := Control(s, step);
            && |s'.table| == |s.table| && s'.origin == s.origin && s'.forwarded == s.forwarded
            && (s'.submissions == s.submissions || s'.submissions == Dropped(s.submissions))
  {
  }

  lemma OtherStep(s: State, step: Step)
    requires Accounted(s) && !IsSubmission(step)
    ensures Accounted(Do(s, step))
  {
    var s' := Do(s, step);
    OtherFrame(s, step);
    StepGrows(s, step);
    forall k | 0 <= k < |s'.submissions|
      ensures SubmissionOk(s', k)
    {
      assert SubmissionOk(s, k);
    }
  }

  lemma {:induction false} Reachable(steps: seq<Step>)
    ensures Accounted(Exec(INIT, steps))
  {
    if |steps| > 0 {
      var before, last := Exec(INIT, steps[..|steps| - 1]), steps[|steps| - 1];
      Reachable(steps[..|steps| - 1]);
      if IsSubmission(last) {
        SubmissionStep(before, last);
      } else {
        OtherStep(before, last);
      }
    }
  }

  /**
   A submission that returned has exactly one acknowledged forward or exactly one row, never both; one
   that did not return has at most one of them. Every row came from one submission and still holds what
   that submission sent.
   */
  lemma {:induction false} Conservation(steps: seq<Step>, k: nat)
    requires k < |Exec(INIT, steps).submissions|
    ensures var s := Exec(INIT, steps);
            var c := s.submissions[k];
            && Times(s.origin, k) + Times(s.forwarded, k) <= 1
            && (c.phase == Returned ==> (if c.hold then Times(s.origin, k) == 1 && Times(s.forwarded, k) == 0
                                         else Times(s.origin, k) == 0 && Times(s.forwarded, k) == 1))
            && |s.table| == |s.origin|
            && (forall r :: 0 <= r < |s.table| && s.origin[r] == k ==> RowOf(s.table[r], c))
  {
    Reachable(steps);
    assert SubmissionOk(Exec(INIT, steps), k);
  }

  // ----- GetCertificateHeader -------------------------------------------------------------------

  /** Where the answer to a header request comes from. */
  datatype Source = UpstreamUnknown | LocalPending(row: nat) | UpstreamProcessed(row: nat)

  function HeaderSource(table: Table, certId: bytes): Source {
    var found := FindById(table, certId);
    if found.None? then UpstreamUnknown
    else if table[found.value].processedAt.Some? then UpstreamProcessed(found.value)
    else LocalPending(found.value)
  }

  function Rank(source: Source): nat {
    match source
    case UpstreamUnknown => 0
    case LocalPending(_) => 1
    case UpstreamProcessed(_) => 2
  }

  lemma {:induction false} FindInGrown(before: Table, after: Table, certId: bytes)
    requires Grown(before, after)
    ensures FindById(before, certId).Some? ==> FindById(after, certId) == FindById(before, certId)
  {
    var a, b := FindById(before, certId), FindById(after, certId);
    if a.Some? {
      assert after[a.value].certId == certId;
      assert b.Some? && b.value <= a.value;
      assert before[b.value].certId == certId;
    }
  }

  /** Along any run the source of the answer for an id only moves forward, and it keeps its row. */
  lemma {:induction false} HeaderMovesForward(s: State, steps: seq<Step>, certId: bytes)
    ensures var before, after := HeaderSource(s.table, certId), HeaderSource(Exec(s, steps).table, certId);
            && Rank(before) <= Rank(after)
            && (before.LocalPending? ==> after == before || after == UpstreamProcessed(before.row))
            && (before.UpstreamProcessed? ==> after == before)
  {
    RowsAreKept(s, steps);
    FindInGrown(s.table, Exec(s, steps).table, certId);
  }

  /**
   The id answered to a held submission always resolves: to its own row, unless an earlier row has the
   same id, and then to the first of those.
   */
  lemma {:induction false} HeldIdResolves(steps: seq<Step>, k: nat)
    requires k < |Exec(INIT, steps).submissions|
    requires Exec(INIT, steps).submissions[k].phase == Returned && Exec(INIT, steps).submissions[k].hold
    ensures var s := Exec(INIT, steps);
            var id := s.submissions[k].certId;
            var source := HeaderSource(s.table, id);
            |s.origin| == |s.table| &&
            exists r :: 0 <= r < |s.table| && s.origin[r] == k && s.table[r].certId == id
                     && !source.UpstreamUnknown? && source.row <= r && s.table[source.row].certId == id
                     && (source.row == r <==> forall j :: 0 <= j < r ==> s.table[j].certId != id)
  {
    Conservation(steps, k);
    var s := Exec(INIT, steps);
    Reachable(steps);
    assert k in multiset(s.origin);
    var r :| 0 <= r < |s.origin| && s.origin[r] == k;
    assert RowOf(s.table[r], s.submissions[k]);
    var source := HeaderSource(s.table, s.submissions[k].certId);
    assert !source.UpstreamUnknown? && source.row <= r;
  }

  /** Two submissions with one id are both held and answered. */
  function TwinSteps(p: bytes, q: bytes, id: bytes): seq<Step> {
    [Boot(DEFAULT_DELAY_SECONDS), Submit(p, id, None, true), Submit(q, id, None, true), Store(0), Store(1), Return(0), Return(1)]
  }

  /** The state in which those two submissions have rows and are in phases `a` and `b`. */
  function Twins(p: bytes, q: bytes, id: bytes, a: SubmissionPhase, b: SubmissionPhase): State {
    INIT.(up := true, log := [Booted(DEFAULT_DELAY_SECONDS)],
          submissions := [Submission(p, id, None, true, a), Submission(q, id, None, true, b)],
          table := [NewRow(p, id, None, 0), NewRow(q, id, None, 0)], origin := [0, 1])
  }

  lemma TwinsStored(p: bytes, q: bytes, id: bytes)
    ensures var s := Twins(p, q, id, Deciding, Deciding).(table := [], origin := []);
            Do(Do(s, Store(0)), Store(1)) == Twins(p, q, id, Held(0), Held(1))
  {
    var s := Twins(p, q, id, Deciding, Deciding).(table := [], origin := []);
    assert Do(s, Store(0)) == Twins(p, q, id, Held(0), Deciding).(table := [NewRow(p, id, None, 0)], origin := [0]);
  }

  lemma TwinsReturned(p: bytes, q: bytes, id: bytes)
    ensures Do(Do(Twins(p, q, id, Held(0), Held(1)), Return(0)), Return(1)) == Twins(p, q, id, Returned, Returned)
  {
    assert Do(Twins(p, q, id, Held(0), Held(1)), Return(0)) == Twins(p, q, id, Returned, Held(1));
  }

  lemma TwinsArrive(p: bytes, q: bytes, id: bytes)
    ensures Do(Do(Do(INIT, Boot(DEFAULT_DELAY_SECONDS)), Submit(p, id, None, true)), Submit(q, id, None, true))
         == Twins(p, q, id, Deciding, Deciding).(table := [], origin := [])
  {
  }

  /** The exception in `HeldIdResolves` does occur: the id of the second submission resolves to the row of the first. */
  lemma SecondTwinResolvesToFirst(p: bytes, q: bytes, id: bytes)
    ensures var s := Exec(INIT, TwinSteps(p, q, id));
            && |s.submissions| == 2 && s.submissions[1] == Submission(q, id, None, true, Returned)
            && s.origin == [0, 1] && |s.table| == 2 && s.table[1].rawProto == q && s.table[1].certId == id
            && HeaderSource(s.table, id) == LocalPending(0)
  {
    TwinsArrive(p, q, id);
    TwinsStored(p, q, id);
    TwinsReturned(p, q, id);
    ExecSeven(INIT, TwinSteps(p, q, id));
    assert FindById([NewRow(p, id, None, 0), NewRow(q, id, None, 0)], id) == Some(0);
  }

  lemma {:induction false} ExecSeven(s: State, steps: seq<Step>)
    requires |steps| == 7
    ensures Exec(s, steps)
         == Do(Do(Do(Do(Do(Do(Do(s, steps[0]), steps[1]), steps[2]), steps[3]), steps[4]), steps[5]), steps[6])
  {
    forall k | 0 <= k < 7
      ensures Exec(s, steps[..k + 1]) == Do(Exec(s, steps[..k]), steps[k])
    {
      assert steps[..k + 1] == steps[..k] + [steps[k]];
      OneMoreStep(s, steps[..k], steps[k]);
    }
    assert steps[..0] == [] && steps[..7] == steps;
    assert Exec(s, steps[..1]) == Do(s, steps[0]);
    assert Exec(s, steps[..2]) == Do(Exec(s, steps[..1]), steps[1]);
    assert Exec(s, steps[..3]) == Do(Exec(s, steps[..2]), steps[2]);
    assert Exec(s, steps[..4]) == Do(Exec(s, steps[..3]), steps[3]);
    assert Exec(s, steps[..5]) == Do(Exec(s, steps[..4]), steps[4]);
    assert Exec(s, steps[..6]) == Do(Exec(s, steps[..5]), steps[5]);
    assert Exec(s, steps[..7]) == Do(Exec(s, steps[..6]), steps[6]);
  }
}
