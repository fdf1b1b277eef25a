/**
 The transparent stream relay: two copying loops and a select loop, in any interleaving.

 A direction has a source that yields its frames in order and then ends; the copier keeps the frame it
 has read in a buffer it reuses. A finished copier leaves one result in its channel.
 */
module Relay {
  type Frame = seq<int>

  datatype Error = EOF | Other

  datatype Copier = Receiving | Sending | FinishedAtReceive | FinishedAtSend

  datatype Channel = Empty | Full(err: Error) | Taken(err: Error)

  datatype Direction = Direction(
    source: seq<Frame>,      // the frames the sending side has for us
    read: nat,               // how many of them RecvMsg has returned
    buffer: Frame,
    delivered: seq<Frame>,   // the frames SendMsg handed to the other side
    copier: Copier,
    result: Channel)

  datatype Handler = Selecting | ReturnedNil | ReturnedError

  datatype State = State(
    toCaller: Direction,     // forwardClientToServer: backend to caller
    toBackend: Direction,    // forwardServerToClient: caller to backend
    handler: Handler,
    sendClosed: bool)        // CloseSend has told the backend that the caller is done

  datatype Move =
    | Receive
    | ReceiveFails(err: Error)                 // EOF only when the source is exhausted
    | Send
    | SendFails(err: Error, reached: bool)     // the frame may or may not have reached the other side

  datatype Step =
    | CopyToCaller(move: Move)
    | CopyToBackend(move: Move)
    | TakeFromCallerSide                       // the select loop receives from s2cErrChan
    | TakeFromBackendSide                      // the select loop receives from c2sErrChan

  predicate Enabled(d: Direction, m: Move) {
    match m
    case Receive => d.copier == Receiving && d.read < |d.source|
    case ReceiveFails(err) => d.copier == Receiving && (err == EOF ==> d.read == |d.source|)
    case Send => d.copier == Sending
    case SendFails(_, _) => d.copier == Sending
  }

  function Copy(d: Direction, m: Move): Direction
    requires Enabled(d, m)
  {
    match m
    case Receive => d.(buffer := d.source[d.read], read := d.read + 1, copier := Sending)
    case ReceiveFails(err) => d.(copier := FinishedAtReceive, result := Full(err))
    case Send => d.(delivered := d.delivered + [d.buffer], copier := Receiving)
    case SendFails(err, reached) =>
      d.(copier := FinishedAtSend, result := Full(err),
         delivered := if reached then d.delivered + [d.buffer] else d.delivered)
  }

  function Advance(d: Direction, m: Move): Direction {
    if Enabled(d, m) then Copy(d, m) else d
  }

  /** A server-side SendMsg never returns io.EOF. */
  predicate ServerSide(m: Move) {
    m.SendFails? ==> m.err != EOF
  }

  /** One step; a step that is not possible changes nothing. */
  function Do(s: State, step: Step): State {
    match step
    case CopyToCaller(m) => if ServerSide(m) then s.(toCaller := Advance(s.toCaller, m)) else s
    case CopyToBackend(m) => s.(toBackend := Advance(s.toBackend, m))
    case TakeFromCallerSide =>
      if s.handler == Selecting && s.toBackend.result.Full? then
        var err := s.toBackend.result.err;
        var taken := s.(toBackend := s.toBackend.(result := Taken(err)));
        if err == EOF then taken.(sendClosed := true) else taken.(handler := ReturnedError)
      else s
    case TakeFromBackendSide =>
      if s.handler == Selecting && s.toCaller.result.Full? then
        var err := s.toCaller.result.err;
        var taken := s.(toCaller := s.toCaller.(result := Taken(err)));
        taken.(handler := if err == EOF then ReturnedNil else ReturnedError)
      else s
  }

  function Start(source: seq<Frame>): Direction {
    Direction(source, 0, [], [], Receiving, Empty)
  }

  function Init(backendFrames: seq<Frame>, callerFrames: seq<Frame>): State {
    State(Start(backendFrames), Start(callerFrames), Selecting, false)
  }

  function Exec(s: State, steps: seq<Step>): State {
    if |steps| == 0 then s else Do(Exec(s, steps[..|steps| - 1]), steps[|steps| - 1])
  }

  // ----- One direction --------------------------------------------------------------------------

  predicate Finished(d: Direction) {
    d.copier == FinishedAtReceive || d.copier == FinishedAtSend
  }

  predicate DirectionInv(d: Direction) {
    && d.read <= |d.source|
    && (Finished(d) <==> d.result != Empty)
    && match d.copier
       case Receiving => d.delivered == d.source[..d.read]
       case Sending => d.read > 0 && d.buffer == d.source[d.read - 1] && d.delivered == d.source[..d.read - 1]
       case FinishedAtReceive =>
         d.delivered == d.source[..d.read] && (d.result.err == EOF ==> d.read == |d.source|)
       case FinishedAtSend =>
         d.read > 0 && (d.delivered == d.source[..d.read] || d.delivered == d.source[..d.read - 1])
  }

  function Weight(d: Direction): nat
    requires d.read <= |d.source|
  {
    match d.copier
    case Receiving => 2 * (|d.source| - d.read) + 2
    case Sending => 2 * (|d.source| - d.read) + 3
    case _ => if d.result.Taken? then 0 else 1
  }

  function Unconsumed(s: State): nat {
    (if s.toCaller.result.Taken? then 0 else 1) + (if s.toBackend.result.Taken? then 0 else 1)
  }

  predicate IsSelect(step: Step) {
    step.TakeFromCallerSide? || step.TakeFromBackendSide?
  }

  /** Copying keeps the invariant and uses up some of the direction's budget. */
  lemma AdvanceKeepsInv(d: Direction, m: Move)
    requires DirectionInv(d)
    ensures DirectionInv(Advance(d, m)) && Advance(d, m).source == d.source
    ensures Advance(d, m) != d ==> Weight(Advance(d, m)) < Weight(d)
    ensures Advance(d, m).result.Taken? <==> d.result.Taken?
    ensures Advance(d, m).copier == FinishedAtSend ==>
              Advance(d, m) == d || (m.SendFails? && Advance(d, m).result == Full(m.err))
    ensures d.result.Taken? ==> Advance(d, m) == d
  {
    if d.copier == Sending {
      assert d.source[..d.read] == d.source[..d.read - 1] + [d.buffer];
    }
  }

  function AdvanceAll(d: Direction, moves: seq<Move>): Direction {
    if |moves| == 0 then d else Advance(AdvanceAll(d, moves[..|moves| - 1]), moves[|moves| - 1])
  }

  lemma {:induction false} OneMoreMove(d: Direction, moves: seq<Move>, m: Move)
    ensures AdvanceAll(d, moves + [m]) == Advance(AdvanceAll(d, moves), m)
  {
    assert (moves + [m])[..|moves|] == moves;
  }

  /** How a RecvMsg or SendMsg call ends, given as the outside world's answers. */
  datatype Answer = Fine | Fails(err: Error, reached: bool)

  /** The error of a receive that yields no frame: a stream ends with EOF only after its last frame. */
  function ReceiveError(source: seq<Frame>, onReceive: nat -> Answer, read: nat): Error {
    if read < |source| then Other else if onReceive(read).Fine? then EOF else onReceive(read).err
  }

  /**
   How the loop must have ended, given the answers: all calls before the last succeeded, the last failed
   and its error is the result, and every frame that went through is delivered.
   */
  ghost predicate Answered(source: seq<Frame>, onReceive: nat -> Answer, onSend: nat -> Answer,
                           read: nat, delivered: seq<Frame>, errChan: Channel) {
    && read <= |source|
    && ((&& (read == |source| || onReceive(read).Fails?)
         && (forall k :: 0 <= k < read ==> onReceive(k).Fine? && onSend(k).Fine?)
         && errChan == Full(ReceiveError(source, onReceive, read)) && delivered == source[..read])
        || (&& read > 0 && onReceive(read - 1).Fine? && onSend(read - 1).Fails?
            && (forall k :: 0 <= k < read - 1 ==> onReceive(k).Fine? && onSend(k).Fine?)
            && errChan == Full(onSend(read - 1).err)
            && delivered == if onSend(read - 1).reached then source[..read] else source[..read - 1]))
  }

  /**
   The copying loop itself, run against the answers of the two streams. It performs exactly moves of the
   direction, in their order, and stops with one result in its channel.
   */
  method CopyLoop(source: seq<Frame>, onReceive: nat -> Answer, onSend: nat -> Answer)
    returns (delivered: seq<Frame>, errChan: Channel, ghost moves: seq<Move>)
    ensures errChan.Full?
    ensures AdvanceAll(Start(source), moves).delivered == delivered
    ensures AdvanceAll(Start(source), moves).result == errChan
    ensures delivered <= source
    ensures errChan == Full(EOF) && AdvanceAll(Start(source), moves).copier == FinishedAtReceive ==> delivered == source
    ensures var read := AdvanceAll(Start(source), moves).read;
            Answered(source, onReceive, onSend, read, delivered, errChan)
  {
    delivered, errChan, moves := [], Empty, [];
    var read, f := 0, [];
    while errChan == Empty
      invariant read <= |source| && !errChan.Taken?
      invariant errChan == Empty ==> AdvanceAll(Start(source), moves) == Direction(source, read, f, delivered, Receiving, Empty)
      invariant errChan == Empty ==> forall k :: 0 <= k < read ==> onReceive(k).Fine? && onSend(k).Fine?
      invariant errChan != Empty ==>
                  Answered(source, onReceive, onSend, AdvanceAll(Start(source), moves).read, delivered, errChan)
      invariant DirectionInv(AdvanceAll(Start(source), moves)) && AdvanceAll(Start(source), moves).source == source
      invariant AdvanceAll(Start(source), moves).delivered == delivered
      invariant AdvanceAll(Start(source), moves).result == errChan
      decreases |source| - read, errChan == Empty
    {
      ghost var d := AdvanceAll(Start(source), moves);
      if read == |source| || onReceive(read).Fails? {
        var err := ReceiveError(source, onReceive, read);
        OneMoreMove(Start(source), moves, ReceiveFails(err));
        AdvanceKeepsInv(d, ReceiveFails(err));
        moves := moves + [ReceiveFails(err)];
        errChan := Full(err);
      } else {
        OneMoreMove(Start(source), moves, Receive);
        AdvanceKeepsInv(d, Receive);
        moves := moves + [Receive];
        f, read := source[read], read + 1;
        d := AdvanceAll(Start(source), moves);
        var answer := onSend(read - 1);
        var m := if answer.Fine? then Send else SendFails(answer.err, answer.reached);
        OneMoreMove(Start(source), moves, m);
        AdvanceKeepsInv(d, m);
        moves := moves + [m];
        if answer.Fine? || answer.reached {
          delivered := delivered + [f];
        }
        if answer.Fails? {
          errChan := Full(answer.err);
        }
      }
    }
  }

  predicate Inv(s: State) {
    && DirectionInv(s.toCaller) && DirectionInv(s.toBackend)
    && (s.toCaller.copier == FinishedAtSend ==> s.toCaller.result.err != EOF)
    && (s.handler == Selecting ==> !s.toCaller.result.Taken?)
    && (s.handler == ReturnedNil <==> s.toCaller.result == Taken(EOF))
    && (s.handler == ReturnedError <==> s.toCaller.result == Taken(Other) || s.toBackend.result == Taken(Other))
    && (s.sendClosed ==> s.toBackend.result == Taken(EOF))
    && (s.toBackend.result == Taken(EOF) ==> s.sendClosed)
  }

  /**
   Every step keeps the invariant; every step that changes anything uses up some of a finite budget,
   and every round of the select loop uses up a channel.
   */
  lemma StepKeepsInv(s: State, step: Step)
    requires Inv(s)
    ensures var s' := Do(s, step);
            && Inv(s')
            && s'.toCaller.source == s.toCaller.source && s'.toBackend.source == s.toBackend.source
            && (s' != s ==> Weight(s'.toCaller) + Weight(s'.toBackend) < Weight(s.toCaller) + Weight(s.toBackend))
            && Unconsumed(s') == if IsSelect(step) && s' != s then Unconsumed(s) - 1 else Unconsumed(s)
  {
    match step
    case CopyToCaller(m) => AdvanceKeepsInv(s.toCaller, m);
    case CopyToBackend(m) => AdvanceKeepsInv(s.toBackend, m);
    case _ =>
  }

  lemma {:induction false} Reachable(backendFrames: seq<Frame>, callerFrames: seq<Frame>, steps: seq<Step>)
    ensures var s := Exec(Init(backendFrames, callerFrames), steps);
            Inv(s) && s.toCaller.source == backendFrames && s.toBackend.source == callerFrames
  {
    if |steps| > 0 {
      Reachable(backendFrames, callerFrames, steps[..|steps| - 1]);
      StepKeepsInv(Exec(Init(backendFrames, callerFrames), steps[..|steps| - 1]), steps[|steps| - 1]);
    }
  }

  /**
   In every interleaving, what each side has been given is a prefix, in order, of what the relay read
   from the other side, at most one frame behind it; a nil return means that the caller has every frame
   of the backend; and closing the backend's input after a clean end of the caller's frames means that
   the backend has all of those. The handler returns nil iff the end of the backend's side it took was
   clean, and an error iff it took an error from either side.
   */
  lemma {:induction false} Faithful(backendFrames: seq<Frame>, callerFrames: seq<Frame>, steps: seq<Step>)
    ensures var s := Exec(Init(backendFrames, callerFrames), steps);
            && s.toCaller.read <= |backendFrames| && s.toBackend.read <= |callerFrames|
            && s.toCaller.delivered <= backendFrames[..s.toCaller.read]
            && s.toBackend.delivered <= callerFrames[..s.toBackend.read]
            && s.toCaller.read - 1 <= |s.toCaller.delivered|
            && s.toBackend.read - 1 <= |s.toBackend.delivered|
            && (s.handler == ReturnedNil ==> s.toCaller.delivered == backendFrames)
            && (s.handler == ReturnedNil <==> s.toCaller.result == Taken(EOF))
            && (s.handler == ReturnedError <==> s.toCaller.result == Taken(Other) || s.toBackend.result == Taken(Other))
            && (s.sendClosed <==> s.toBackend.result == Taken(EOF))
            && (s.sendClosed && s.toBackend.copier == FinishedAtReceive ==> s.toBackend.delivered == callerFrames)
  {
    Reachable(backendFrames, callerFrames, steps);
  }

  // ----- What the select loop makes of a result -------------------------------------------------

  /** A clean end of the backend's side makes the handler return nil, an error makes it return that error. */
  lemma BackendSideTaken(s: State)
    requires s.handler == Selecting && s.toCaller.result.Full?
    ensures var s' := Do(s, TakeFromBackendSide);
            && (s.toCaller.result == Full(EOF) ==> s'.handler == ReturnedNil)
            && (s.toCaller.result == Full(Other) ==> s'.handler == ReturnedError)
  {
  }

  /** A clean end of the caller's side only closes the backend's input; an error ends the call. */
  lemma CallerSideTaken(s: State)
    requires s.handler == Selecting && s.toBackend.result.Full?
    ensures var s' := Do(s, TakeFromCallerSide);
            && (s.toBackend.result == Full(EOF) ==> s'.handler == Selecting && s'.sendClosed)
            && (s.toBackend.result == Full(Other) ==> s'.handler == ReturnedError)
  {
  }

  // ----- Runs in which nothing fails ------------------------------------------------------------

  predicate CleanMove(m: Move) {
    m == Receive || m == Send || m == ReceiveFails(EOF)
  }

  predicate Clean(step: Step) {
    match step
    case CopyToCaller(m) => CleanMove(m)
    case CopyToBackend(m) => CleanMove(m)
    case _ => true
  }

  predicate NothingFailed(d: Direction) {
    d.copier != FinishedAtSend && d.result != Full(Other) && d.result != Taken(Other)
  }

  lemma {:induction false} CleanRun(backendFrames: seq<Frame>, callerFrames: seq<Frame>, steps: seq<Step>)
    requires forall k :: 0 <= k < |steps| ==> Clean(steps[k])
    ensures var s := Exec(Init(backendFrames, callerFrames), steps);
            NothingFailed(s.toCaller) && NothingFailed(s.toBackend)
  {
    if |steps| > 0 {
      CleanRun(backendFrames, callerFrames, steps[..|steps| - 1]);
    }
  }

  /** No enabled move that is not a failure is left. */
  ghost predicate Over(s: State) {
    forall step: Step :: Clean(step) ==> Do(s, step) == s
  }

  lemma DirectionOver(d: Direction)
    requires DirectionInv(d) && NothingFailed(d)
    requires forall m: Move :: CleanMove(m) ==> Advance(d, m) == d
    ensures d.result == Full(EOF) || d.result == Taken(EOF)
  {
    assert Advance(d, Receive) == d && Advance(d, Send) == d && Advance(d, ReceiveFails(EOF)) == d;
  }

  /**
   A run in which no call fails and every possible move has been made ends with a nil return, the caller
   having every frame of the backend.
   */
  lemma {:induction false} CleanRunSucceeds(backendFrames: seq<Frame>, callerFrames: seq<Frame>, steps: seq<Step>)
    requires forall k :: 0 <= k < |steps| ==> Clean(steps[k])
    requires Over(Exec(Init(backendFrames, callerFrames), steps))
    ensures var s := Exec(Init(backendFrames, callerFrames), steps);
            s.handler == ReturnedNil && s.toCaller.delivered == backendFrames
  {
    var s := Exec(Init(backendFrames, callerFrames), steps);
    Faithful(backendFrames, callerFrames, steps);
    Reachable(backendFrames, callerFrames, steps);
    CleanRun(backendFrames, callerFrames, steps);
    forall m: Move | CleanMove(m)
      ensures Advance(s.toCaller, m) == s.toCaller
    {
      assert Do(s, CopyToCaller(m)) == s;
    }
    DirectionOver(s.toCaller);
    assert Do(s, TakeFromBackendSide) == s;
  }

  // ----- Termination ----------------------------------------------------------------------------

  /** The number of steps of a run that change the state. */
  function Effective(s: State, steps: seq<Step>): nat {
    if |steps| == 0 then 0
    else
      var before := Exec(s, steps[..|steps| - 1]);
      Effective(s, steps[..|steps| - 1]) + if Do(before, steps[|steps| - 1]) != before then 1 else 0
  }

  /** How often the select loop went round in a run. */
  function Selects(s: State, steps: seq<Step>): nat {
    if |steps| == 0 then 0
    else
      var before, last := Exec(s, steps[..|steps| - 1]), steps[|steps| - 1];
      Selects(s, steps[..|steps| - 1])
      + if IsSelect(last) && Do(before, last) != before then 1 else 0
  }

  /**
   No run is infinite: two steps per frame and four more are the most a run can take, at most two of
   them in the select loop, which is never left waiting once the backend's side has finished.
   */
  lemma {:induction false} Terminates(backendFrames: seq<Frame>, callerFrames: seq<Frame>, steps: seq<Step>)
    ensures var s := Exec(Init(backendFrames, callerFrames), steps);
            && Inv(s)
            && Effective(Init(backendFrames, callerFrames), steps) + Weight(s.toCaller) + Weight(s.toBackend)
               <= 2 * (|backendFrames| + |callerFrames|) + 4
            && Selects(Init(backendFrames, callerFrames), steps) + Unconsumed(s) <= 2
            && (s.handler == Selecting && Finished(s.toCaller) ==> Do(s, TakeFromBackendSide).handler != Selecting)
  {
    if |steps| > 0 {
      var front := steps[..|steps| - 1];
      Terminates(backendFrames, callerFrames, front);
      StepKeepsInv(Exec(Init(backendFrames, callerFrames), front), steps[|steps| - 1]);
    }
  }
}
