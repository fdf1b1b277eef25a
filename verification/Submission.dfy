/**
 `SubmitCertificate` and `GetCertificateHeader` as the program runs them, inside the step system.

 Between any two steps of a call the rest of the proxy takes any steps it likes, as `env` says: other
 submissions, the scheduler, the endpoints, the clock. Only the end of the process is left to the caller.
 */
module Submission {
  import opened Wrappers
  import opened Bytes
  import opened Certificates
  import opened Marshal
  import opened Tokens
  import opened Identity
  import opened Metadata
  import opened CertificateTable
  import opened Lifecycle
  import Accounting
  import opened Conservation
  import Chains
  import Suspicion

  /** What the outside world answers during one call. */
  datatype Outside = Outside(
    chainsReadable: bool,        // reading the list of delayed chains succeeds
    pricesReadable: bool,        // reading the suspicion settings succeeds
    inserted: bool,              // the insert succeeds
    upstream: Upstream)

  /** What becomes of an immediate forward: a call that reached the node may still return an error. */
  datatype Upstream = Unreached | Unanswered | AnsweredBare | Answered(certificateId: bytes)

  /** How `SendToAggSender` ends; an answer without an id is dereferenced all the same. */
  datatype SendResult = SendReturns(certificateId: bytes) | SendFails | SendPanics

  datatype Reply =
    | Accepted(certificateId: bytes)
    | Refused                    // an error is returned
    | Panicked                   // the call dereferences a missing part, response or limit

  /** Where a submission goes. */
  datatype Route = Immediately | Hold | Refuse | Panic

  /**
   Chains that are not delayed and certificates without any withdrawal go straight on; the rest is held
   if the check calls it suspicious. If the list of chains cannot be read, every chain counts as delayed.
   */
  ghost function RouteOf(delayed: bool, exits: seq<BridgeExit>, outcome: Suspicion.Outcome): Route {
    if !delayed || Accounting.WithdrawalValue(exits) == 0 then Immediately
    else match outcome
      case Verdict(suspicious) => if suspicious then Hold else Immediately
      case Failed => Refuse
      case Panics => Panic
  }

  /** How far a submission that was routed on gets; one that is not answered without error ends in a panic. */
  function PhaseAfter(hold: bool, o: Outside): SubmissionPhase {
    if hold then (if o.inserted then Returned else Deciding)
    else match o.upstream
      case Unreached => Deciding
      case Unanswered => Forwarded
      case AnsweredBare => ForwardAcked
      case Answered(_) => Returned
  }

  function ReplyAfter(hold: bool, certId: bytes, o: Outside): Reply {
    if PhaseAfter(hold, o) != Returned then Panicked
    else Accepted(if hold then certId else o.upstream.certificateId)
  }

  // ----- Steps of one call and of the others ----------------------------------------------------

  predicate OfCall(step: Step, k: nat) {
    step in {Store(k), Forward(k), ForwardAnswer(k), Return(k)}
  }

  predicate IsOther(step: Step, k: nat) {
    !OfCall(step, k) && !step.Halt?
  }

  ghost predicate OthersOnly(env: nat -> seq<Step>, k: nat) {
    forall n: nat, m :: 0 <= m < |env(n)| ==> IsOther(env(n)[m], k)
  }

  /** A run continued within one process. */
  ghost predicate Continues(before: seq<Step>, after: seq<Step>) {
    before <= after && forall m :: |before| <= m < |after| ==> !after[m].Halt?
  }

  lemma OtherServes(s: State, step: Step, k: nat)
    requires k < |s.submissions| && IsOther(step, k)
    ensures var s' := Serve(s, step);
            k < |s'.submissions| && s'.submissions[k] == s.submissions[k] && s'.up == s.up
  {
  }

  lemma OtherKeepsSubmission(s: State, step: Step, k: nat)
    requires k < |s.submissions| && s.up && IsOther(step, k)
    ensures var s' := Do(s, step);
            k < |s'.submissions| && s'.submissions[k] == s.submissions[k] && s'.up
  {
    OtherServes(s, step, k);
    OtherFrame(s, step);
  }

  lemma {:induction false} OthersKeepSubmission(s: State, steps: seq<Step>, k: nat)
    requires k < |s.submissions| && s.up && forall m :: 0 <= m < |steps| ==> IsOther(steps[m], k)
    ensures var s' := Exec(s, steps);
            k < |s'.submissions| && s'.submissions[k] == s.submissions[k] && s'.up
  {
    if |steps| > 0 {
      OthersKeepSubmission(s, steps[..|steps| - 1], k);
      OtherKeepsSubmission(Exec(s, steps[..|steps| - 1]), steps[|steps| - 1], k);
    }
  }

  /** Submission `k` has exactly one row that holds what it sent, or exactly one acknowledged forward. */
  ghost predicate AcceptedOnce(s: State, k: nat, held: bool) {
    && k < |s.submissions| && |s.origin| == |s.table|
    && Times(s.origin, k) == (if held then 1 else 0) && Times(s.forwarded, k) == (if held then 0 else 1)
    && forall r :: 0 <= r < |s.table| && s.origin[r] == k ==> RowOf(s.table[r], s.submissions[k])
  }

  /** The forward of submission `k` has reached the upstream node. */
  predicate NodeReached(s: State, k: nat) {
    && k < |s.submissions| && !s.submissions[k].hold
    && s.submissions[k].phase in {Forwarded, ForwardAcked, Returned}
  }

  ghost predicate HasAmount(exits: seq<BridgeExit>) {
    exists k :: 0 <= k < |exits| && exits[k].amount.Some? && ValueBE(exits[k].amount.value) > 0
  }

  lemma {:induction false} AmountMeaning(exits: seq<BridgeExit>)
    ensures Accounting.WithdrawalValue(exits) > 0 <==> HasAmount(exits)
  {
    if |exits| > 0 {
      var n := |exits| - 1;
      AmountMeaning(exits[..n]);
      if k :| 0 <= k < n && exits[k].amount.Some? && ValueBE(exits[k].amount.value) > 0 {
        assert exits[..n][k] == exits[k];
      }
      if k :| 0 <= k < n && exits[..n][k].amount.Some? && ValueBE(exits[..n][k].amount.value) > 0 {
        assert exits[k] == exits[..n][k];
      }
    }
  }

  /** Where a certificate goes, by whether it is examined. */
  ghost function RouteWhen(examined: bool, outcome: Suspicion.Outcome): Route {
    if !examined then Immediately
    else if outcome == Suspicion.Verdict(true) then Hold
    else if outcome == Suspicion.Verdict(false) then Immediately
    else if outcome == Suspicion.Failed then Refuse
    else Panic
  }

  lemma {:induction false} RouteMeaning(delayed: bool, exits: seq<BridgeExit>, outcome: Suspicion.Outcome)
    ensures RouteOf(delayed, exits, outcome) == RouteWhen(delayed && HasAmount(exits), outcome)
  {
    AmountMeaning(exits);
  }

  lemma {:induction false} CallMeaning(steps: seq<Step>, k: nat, hashable: bool, examined: bool, check: Suspicion.Outcome,
                                       o: Outside, certId: bytes, rawProto: bytes, metadata: Meta, reply: Reply)
    requires var s := Exec(INIT, steps);
             var route := RouteWhen(examined, if o.pricesReadable then check else Suspicion.Failed);
             if hashable && (route.Hold? || route.Immediately?) then
               && k < |s.submissions|
               && s.submissions[k] == Submission(rawProto, certId, Some(metadata), route.Hold?, PhaseAfter(route.Hold?, o))
               && reply == ReplyAfter(route.Hold?, certId, o)
             else k == |s.submissions| && reply == if hashable && route.Refuse? then Refused else Panicked
    ensures var s := Exec(INIT, steps);
            var stored := hashable && examined && o.pricesReadable && check == Suspicion.Verdict(true) && o.inserted;
            var passed := hashable && (!examined || (o.pricesReadable && check == Suspicion.Verdict(false)));
            && Times(s.origin, k) == (if stored then 1 else 0)
            && (NodeReached(s, k) <==> passed && !o.upstream.Unreached?)
            && (reply == Refused <==> hashable && examined && (!o.pricesReadable || check == Suspicion.Failed))
            && (reply.Accepted? <==> stored || (passed && o.upstream.Answered?))
            && (stored ==> reply == Accepted(certId))
            && (passed && o.upstream.Answered? ==> reply == Accepted(o.upstream.certificateId))
            && (reply.Accepted? ==> AcceptedOnce(s, k, stored))
            && (stored ==> !HeaderSource(s.table, certId).UpstreamUnknown?)
            && (k < |s.submissions| ==> hashable && s.submissions[k].rawProto == rawProto && s.submissions[k].certId == certId
                                        && s.submissions[k].metadata == Some(metadata))
  {
    RowsAndForwards(steps, k);
    if reply.Accepted? {
      ReturnedOnce(steps, k);
    }
  }

  /** The rows of a submission, by how far it got. */
  lemma {:induction false} RowsAndForwards(steps: seq<Step>, k: nat)
    ensures var s := Exec(INIT, steps);
            && (k >= |s.submissions| ==> Times(s.origin, k) == 0)
            && (k < |s.submissions| && (!s.submissions[k].hold || s.submissions[k].phase == Deciding) ==> Times(s.origin, k) == 0)
            && (k < |s.submissions| && s.submissions[k].hold && s.submissions[k].phase == Returned ==> Times(s.origin, k) == 1)
  {
    Conservation.Reachable(steps);
    var s := Exec(INIT, steps);
    if k < |s.submissions| {
      assert SubmissionOk(s, k);
    } else {
      assert k !in multiset(s.origin);
    }
  }

  lemma {:induction false} ReturnedOnce(steps: seq<Step>, k: nat)
    requires k < |Exec(INIT, steps).submissions| && Exec(INIT, steps).submissions[k].phase == Returned
    ensures var s := Exec(INIT, steps);
            && AcceptedOnce(s, k, s.submissions[k].hold)
            && (s.submissions[k].hold ==> !HeaderSource(s.table, s.submissions[k].certId).UpstreamUnknown?)
  {
    Conservation.Conservation(steps, k);
    if Exec(INIT, steps).submissions[k].hold {
      HeldIdResolves(steps, k);
    }
  }

  // ----- Header requests ------------------------------------------------------------------------

  datatype HeaderAnswer = NodeFails | HeaderWithoutId | WholeHeader

  datatype HeaderReply = Pending | FromNode | HeaderFails | HeaderPanics

  class Server {
    const service: Chains.Service
    var world: State
    var turn: nat
    ghost var trace: seq<Step>

    /** The world is where the steps taken so far have led from the empty database. */
    ghost predicate Valid()
      reads this
    {
      world == Exec(INIT, trace)
    }

    constructor (service: Chains.Service)
      ensures this.service == service && Valid() && trace == []
    {
      this.service, world, turn, trace := service, INIT, 0, [];
    }

    method Interleave(env: nat -> seq<Step>, k: nat)
      requires Valid() && world.up && OthersOnly(env, k) && k < |world.submissions|
      modifies this`world, this`turn, this`trace
      ensures Valid() && world.up && Continues(old(trace), trace)
      ensures k < |world.submissions| && world.submissions[k] == old(world.submissions[k])
    {
      OthersKeepSubmission(world, env(turn), k);
      ExecConcat(INIT, trace, env(turn));
      world := Exec(world, env(turn));
      trace := trace + env(turn);
      turn := turn + 1;
    }

    method Take(step: Step)
      requires Valid() && !step.Halt?
      modifies this`world, this`trace
      ensures Valid() && trace == old(trace) + [step] && Continues(old(trace), trace)
      ensures world == Do(old(world), step)
    {
      OneMoreStep(INIT, trace, step);
      world := Do(world, step);
      trace := trace + [step];
    }

    ghost function RouteFor(cert: Certificate, o: Outside): Route
      reads this, service
    {
      RouteOf(
        o.chainsReadable ==> cert.networkId in service.DelayedChains(),
        cert.bridgeExits,
        if o.pricesReadable then
          Suspicion.Check(service.ConfigValue("suspicious_value"), service.ConfigValue("token_values"), cert.bridgeExits)
        else Suspicion.Failed)
    }

    /** `withdrawalValue`, added up in place over the exits. */
    method SumExits(exits: seq<BridgeExit>) returns (withdrawalValue: nat)
      ensures withdrawalValue == Accounting.WithdrawalValue(exits)
    {
      withdrawalValue := 0;
      for k := 0 to |exits|
        invariant withdrawalValue == Accounting.WithdrawalValue(exits[..k])
      {
        assert exits[..k + 1][..k] == exits[..k];
        withdrawalValue := withdrawalValue + ValueBE(AmountBytes(exits[k]));
      }
      assert exits[..|exits|] == exits;
    }

    /** `sendCertificateImmediately`: how far the forward of submission `k` gets, and what the call returns. */
    method SendImmediately(env: nat -> seq<Step>, k: nat, upstream: Upstream) returns (r: SendResult)
      requires Valid() && world.up && OthersOnly(env, k)
      requires k < |world.submissions| && world.submissions[k].phase == Deciding && !world.submissions[k].hold
      modifies this`world, this`turn, this`trace
      ensures Valid() && world.up && Continues(old(trace), trace)
      ensures k < |world.submissions|
      ensures world.submissions[k] == old(world.submissions[k]).(phase :=
                match upstream
                case Unreached => Deciding
                case Unanswered => Forwarded
                case AnsweredBare => ForwardAcked
                case Answered(_) => ForwardAcked)
      ensures r == match upstream
                   case Answered(id) => SendReturns(id)
                   case AnsweredBare => SendPanics
                   case _ => SendFails
    {
      if upstream.Unreached? {
        return SendFails;
      }
      Take(Forward(k));
      Interleave(env, k);
      if upstream.Unanswered? {
        return SendFails;
      }
      Take(ForwardAnswer(k));
      r := if upstream.Answered? then SendReturns(upstream.certificateId) else SendPanics;
    }

    /** `storeCertificate`: the row is inserted, or an error is returned. */
    method StoreCertificate(k: nat, inserted: bool) returns (ok: bool)
      requires Valid() && world.up
      requires k < |world.submissions| && world.submissions[k].phase == Deciding && world.submissions[k].hold
      modifies this`world, this`trace
      ensures Valid() && world.up && Continues(old(trace), trace)
      ensures ok == inserted && k < |world.submissions|
      ensures world.submissions[k] == old(world.submissions[k]).(phase := if ok then Held(|old(world.table)|) else Deciding)
      ensures var c := world.submissions[k];
              world.table == if ok then old(world.table) + [Row(c.rawProto, c.certId, c.metadata, world.now, None, None)]
                             else old(world.table)
    {
      ok := inserted;
      if ok {
        Take(Store(k));
      }
    }

    /**
     One submission, in terms of what was sent and configured and how the outside answered.

     The certificate is examined if its chain is delayed, or the list of chains cannot be read, and some
     exit has an amount. It is stored, in exactly one row, iff it is examined, the check says suspicious and
     the insert succeeds. It is passed on iff it is not examined or the check says not suspicious; then the
     node is reached unless it cannot be, and the reply carries the id the node answered. An error is
     returned iff the check could not be made or failed. Whatever is accepted has exactly one row or exactly
     one acknowledged forward, in the run of all calls; the id answered for a stored one resolves.
     */
    method SubmitCertificate(h: Hash, cert: Certificate, rawProto: bytes, o: Outside, env: nat -> seq<Step>)
      returns (reply: Reply)
      requires Valid() && world.up && OthersOnly(env, |world.submissions|)
      modifies this`world, this`turn, this`trace
      ensures Valid() && Continues(old(trace), trace)
      ensures var k := |old(world.submissions)|;
              var examined := (!o.chainsReadable || cert.networkId in old(service.DelayedChains())) && HasAmount(cert.bridgeExits);
              var check := old(Suspicion.Check(service.ConfigValue("suspicious_value"), service.ConfigValue("token_values"),
                                               cert.bridgeExits));
              var stored := Hashable(cert) && examined && o.pricesReadable && check == Suspicion.Verdict(true) && o.inserted;
              var passed := Hashable(cert) && (!examined || (o.pricesReadable && check == Suspicion.Verdict(false)));
              && Times(world.origin, k) == (if stored then 1 else 0)
              && (NodeReached(world, k) <==> passed && !o.upstream.Unreached?)
              && (reply == Refused <==> Hashable(cert) && examined && (!o.pricesReadable || check == Suspicion.Failed))
              && (reply.Accepted? <==> stored || (passed && o.upstream.Answered?))
              && (stored ==> reply == Accepted(CertificateId(h, View(cert))))
              && (passed && o.upstream.Answered? ==> reply == Accepted(o.upstream.certificateId))
              && (reply.Accepted? ==> AcceptedOnce(world, k, stored))
              && (stored ==> !HeaderSource(world.table, reply.certificateId).UpstreamUnknown?)
      ensures var k := |old(world.submissions)|;
              k < |world.submissions| && (NodeReached(world, k) || Times(world.origin, k) > 0) ==>
                world.submissions[k].rawProto == rawProto
                && Hashable(cert) && world.submissions[k].certId == CertificateId(h, View(cert))
                && world.submissions[k].metadata == Some(MetaOf(cert))
      ensures !reply.Panicked? ==> Suspicion.AllCounted(cert.bridgeExits)
    {
      ghost var delayed := !o.chainsReadable || cert.networkId in service.DelayedChains();
      ghost var check := Suspicion.Check(service.ConfigValue("suspicious_value"), service.ConfigValue("token_values"),
                                         cert.bridgeExits);
      RouteMeaning(delayed, cert.bridgeExits, if o.pricesReadable then check else Suspicion.Failed);
      reply := Dispatch(h, cert, rawProto, o, env);
      CallMeaning(trace, |old(world.submissions)|, Hashable(cert), delayed && HasAmount(cert.bridgeExits), check, o,
                  if Hashable(cert) then CertificateId(h, View(cert)) else [], rawProto, MetaOf(cert), reply);
    }

    /**
     A certificate that is refused, or panics while it is looked at, takes no step. Any other becomes a
     submission of the run, takes only its own steps and gets exactly as far as the outside lets it.
     */
    method Dispatch(h: Hash, cert: Certificate, rawProto: bytes, o: Outside, env: nat -> seq<Step>)
      returns (reply: Reply)
      requires Valid() && world.up && OthersOnly(env, |world.submissions|)
      modifies this`world, this`turn, this`trace
      ensures Valid() && Continues(old(trace), trace)
      ensures var route, k := old(RouteFor(cert, o)), |old(world.submissions)|;
              if Hashable(cert) && (route.Hold? || route.Immediately?) then
                && k < |world.submissions|
                && world.submissions[k] == Submission(rawProto, CertificateId(h, View(cert)), Some(MetaOf(cert)), route.Hold?,
                                                      PhaseAfter(route.Hold?, o))
                && reply == ReplyAfter(route.Hold?, CertificateId(h, View(cert)), o)
              else world == old(world) && reply == if Hashable(cert) && route.Refuse? then Refused else Panicked
      ensures !reply.Panicked? ==> Suspicion.AllCounted(cert.bridgeExits)
    {
      var metadata := ExtractMetadata(cert);
      var certId := GenerateCertificateId(h, cert);
      if certId.None? {
        return Panicked;
      }
      var route := Decide(cert, o);
      match route {
        case Refuse => return Refused;
        case Panic => return Panicked;
        case _ =>
      }
      reply := Follow(route.Hold?, rawProto, certId.value, metadata, o, env);
    }

    /** What follows from the route. The response is dereferenced even after an error. */
    method Follow(hold: bool, rawProto: bytes, certId: bytes, metadata: Meta, o: Outside, env: nat -> seq<Step>)
      returns (reply: Reply)
      requires Valid() && world.up && OthersOnly(env, |world.submissions|)
      modifies this`world, this`turn, this`trace
      ensures Valid() && Continues(old(trace), trace)
      ensures var k := |old(world.submissions)|;
              && k < |world.submissions|
              && world.submissions[k] == Submission(rawProto, certId, Some(metadata), hold, PhaseAfter(hold, o))
      ensures reply == ReplyAfter(hold, certId, o)
    {
      var k := Arrive(rawProto, certId, metadata, hold, env);
      if hold {
        var ok := StoreCertificate(k, o.inserted);
        if !ok {
          return Panicked;
        }
        reply := Accepted(certId);
      } else {
        var sent := SendImmediately(env, k, o.upstream);
        if !sent.SendReturns? {
          return Panicked;
        }
        reply := Accepted(sent.certificateId);
      }
      Finish(env, k);
    }

    method Arrive(rawProto: bytes, certId: bytes, metadata: Meta, hold: bool, env: nat -> seq<Step>) returns (k: nat)
      requires Valid() && world.up && OthersOnly(env, |world.submissions|)
      modifies this`world, this`turn, this`trace
      ensures Valid() && world.up && Continues(old(trace), trace)
      ensures k == |old(world.submissions)| < |world.submissions|
      ensures world.submissions[k] == Submission(rawProto, certId, Some(metadata), hold, Deciding)
    {
      k := |world.submissions|;
      Take(Submit(rawProto, certId, Some(metadata), hold));
      Interleave(env, k);
    }

    /** The answer goes back to the submitter. */
    method Finish(env: nat -> seq<Step>, k: nat)
      requires Valid() && world.up && OthersOnly(env, k) && k < |world.submissions|
      requires world.submissions[k].phase == ForwardAcked || world.submissions[k].phase.Held?
      modifies this`world, this`turn, this`trace
      ensures Valid() && Continues(old(trace), trace)
      ensures k < |world.submissions| && world.submissions[k] == old(world.submissions[k]).(phase := Returned)
    {
      Interleave(env, k);
      Take(Return(k));
    }

    /** The nested decisions of the call. */
    method Decide(cert: Certificate, o: Outside) returns (route: Route)
      ensures route == RouteFor(cert, o)
    {
      var delayed := service.IsChainDelayed(cert.networkId, o.chainsReadable);
      var isDelayed := if delayed.Success? then delayed.value else true;
      var withdrawalValue := SumExits(cert.bridgeExits);
      if !isDelayed {
        return Immediately;
      }
      if withdrawalValue == 0 {
        return Immediately;
      }
      if !o.pricesReadable {
        return Refuse;
      }
      var outcome := Suspicion.CheckForSuspiciousValue(
        service.ConfigValue("suspicious_value"), service.ConfigValue("token_values"), cert.bridgeExits);
      match outcome
      case Failed => route := Refuse;
      case Panics => route := Panic;
      case Verdict(isSuspicious) => route := if isSuspicious then Hold else Immediately;
    }

    /**
     The locally made PENDING header is the answer exactly while the first row with the id is read and is
     not processed; otherwise it is the node's. A processed row's answer is dereferenced for its id.
     */
    method GetCertificateHeader(requestId: bytes, readable: bool, node: HeaderAnswer) returns (reply: HeaderReply)
      ensures reply.Pending? <==>
                readable && exists r :: 0 <= r < |world.table| && world.table[r].certId == requestId
                                        && world.table[r].processedAt.None?
                                        && forall j :: 0 <= j < r ==> world.table[j].certId != requestId
      ensures reply.HeaderFails? <==> !readable || (!reply.Pending? && node.NodeFails?)
      ensures reply.HeaderPanics? <==>
                readable && node.HeaderWithoutId? && exists r :: 0 <= r < |world.table| && world.table[r].certId == requestId
                                                                 && world.table[r].processedAt.Some?
                                                                 && forall j :: 0 <= j < r ==> world.table[j].certId != requestId
    {
      if !readable {
        return HeaderFails;
      }
      var fromStorage := FindById(world.table, requestId);
      if fromStorage.None? {
        return if node.NodeFails? then HeaderFails else FromNode;
      }
      if world.table[fromStorage.value].processedAt.Some? {
        if node.NodeFails? {
          return HeaderFails;
        }
        reply := if node.HeaderWithoutId? then HeaderPanics else FromNode;
      } else {
        reply := Pending;
      }
    }
  }

  // ----- When everything of value is held -------------------------------------------------------

  /** Every certificate of a delayed chain that withdraws anything is held. */
  ghost predicate HoldsAllValue(suspiciousValue: string, tokenValues: string) {
    forall exits :: Suspicion.AllCounted(exits) && Accounting.WithdrawalValue(exits) > 0 ==>
                      RouteOf(true, exits, Suspicion.Check(suspiciousValue, tokenValues, exits)) == Hold
  }

  /**
   A token an exit can be in never lets a withdrawal pass: there is a limit, and the smallest amount of the
   token is already above it.
   */
  predicate AlwaysAbove(suspiciousValue: string, prices: Suspicion.Prices) {
    forall id :: id in prices && AllHex(prices[id].address) ==>
                   && Suspicion.LimitOf(suspiciousValue).Success?
                   && prices[id].multiplier == 1 && prices[id].dollarValue > Suspicion.LimitOf(suspiciousValue).value
  }

  /**
   What the configuration must be for every withdrawal from a delayed chain to be held: both texts are
   missing, or both can be read and no configured token ever lets an amount pass.
   */
  lemma HoldsAllValueMeaning(suspiciousValue: string, tokenValues: string)
    ensures HoldsAllValue(suspiciousValue, tokenValues)
            <==> (suspiciousValue == "" && tokenValues == "")
                 || (Suspicion.Readable(suspiciousValue, tokenValues)
                     && AlwaysAbove(suspiciousValue, Suspicion.PricesOf(tokenValues).value))
  {
    if suspiciousValue != "" || tokenValues != "" {
      if !Suspicion.Readable(suspiciousValue, tokenValues) {
        UnreadableRefuses(suspiciousValue, tokenValues);
      } else if AlwaysAbove(suspiciousValue, Suspicion.PricesOf(tokenValues).value) {
        forall exits | Suspicion.AllCounted(exits) && Accounting.WithdrawalValue(exits) > 0
          ensures RouteOf(true, exits, Suspicion.Check(suspiciousValue, tokenValues, exits)) == Hold
        {
          AboveHolds(suspiciousValue, tokenValues, exits);
        }
      } else {
        var id :| id in Suspicion.PricesOf(tokenValues).value && AllHex(Suspicion.PricesOf(tokenValues).value[id].address)
                  && !(Suspicion.LimitOf(suspiciousValue).Success?
                       && Suspicion.PricesOf(tokenValues).value[id].multiplier == 1
                       && Suspicion.PricesOf(tokenValues).value[id].dollarValue > Suspicion.LimitOf(suspiciousValue).value);
        SmallestPasses(suspiciousValue, tokenValues, id);
      }
    }
  }

  lemma OneUnit(e: BridgeExit)
    requires e.amount == Some([1])
    ensures Accounting.WithdrawalValue([e]) == 1 && ValueBE(AmountBytes(e)) == 1
  {
    assert [e][..0] == [] && [1][..0] == [];
    assert ValueBE([1]) == 1;
  }

  lemma UnreadableRefuses(suspiciousValue: string, tokenValues: string)
    requires (suspiciousValue != "" || tokenValues != "") && !Suspicion.Readable(suspiciousValue, tokenValues)
    ensures !HoldsAllValue(suspiciousValue, tokenValues)
  {
    var e := Suspicion.ExitOf(TokenValue(0, "", 0, 0), [1]);
    OneUnit(e);
    assert Suspicion.AllCounted([e]);
    assert RouteOf(true, [e], Suspicion.Check(suspiciousValue, tokenValues, [e])) == Refuse;
  }

  /** One unit of a token whose unit is not above the limit is let through, or makes the check panic. */
  lemma SmallestPasses(suspiciousValue: string, tokenValues: string, id: string)
    requires Suspicion.Readable(suspiciousValue, tokenValues) && id in Suspicion.PricesOf(tokenValues).value
    requires AllHex(Suspicion.PricesOf(tokenValues).value[id].address)
    requires var t, limit := Suspicion.PricesOf(tokenValues).value[id], Suspicion.LimitOf(suspiciousValue);
             !(limit.Success? && t.multiplier == 1 && t.dollarValue > limit.value)
    ensures !HoldsAllValue(suspiciousValue, tokenValues)
  {
    var prices := Suspicion.PricesOf(tokenValues).value;
    var e := Suspicion.ExitOf(prices[id], [1]);
    Suspicion.ExitOfIsPriced(tokenValues, id, [1]);
    Suspicion.CheckOfOne(suspiciousValue, tokenValues, e);
    OneUnit(e);
    UnitWorth(prices, e);
    assert Suspicion.AllCounted([e]);
    assert RouteOf(true, [e], Suspicion.Check(suspiciousValue, tokenValues, [e])) != Hold;
  }

  lemma UnitWorth(prices: Suspicion.Prices, e: BridgeExit)
    requires Suspicion.Priced(prices, e) || Suspicion.Breaks(prices, e)
    requires ValueBE(AmountBytes(e)) == 1
    ensures var t := prices[Suspicion.PriceID(e)];
            Suspicion.Worth(prices, e) == if t.multiplier == 1 then t.dollarValue else 0
  {
    var t := prices[Suspicion.PriceID(e)];
    if t.multiplier > 0 {
      UnitTimes(t.multiplier, t.dollarValue);
    }
  }

  lemma UnitTimes(multiplier: nat, dollars: nat)
    requires multiplier > 0
    ensures Suspicion.FloorTimes(1, multiplier, dollars) == if multiplier == 1 then dollars else 0
  {
    if multiplier > 1 {
      ModUnique(1, multiplier, 0, 1);
    }
  }

  lemma {:induction false} SomeValue(exits: seq<BridgeExit>) returns (k: nat)
    requires Accounting.WithdrawalValue(exits) > 0
    ensures k < |exits| && ValueBE(AmountBytes(exits[k])) > 0
  {
    var n := |exits| - 1;
    if ValueBE(AmountBytes(exits[n])) > 0 {
      k := n;
    } else {
      k := SomeValue(exits[..n]);
    }
  }

  /** No exit meets a zero multiplier. */
  lemma NothingBreaks(suspiciousValue: string, tokenValues: string, exits: seq<BridgeExit>)
    requires Suspicion.PricesOf(tokenValues).Success?
    requires AlwaysAbove(suspiciousValue, Suspicion.PricesOf(tokenValues).value)
    ensures forall k :: 0 <= k < |exits| ==> !Suspicion.Breaks(Suspicion.PricesOf(tokenValues).value, exits[k])
  {
    var prices := Suspicion.PricesOf(tokenValues).value;
    forall k | 0 <= k < |exits|
      ensures !Suspicion.Breaks(prices, exits[k])
    {
      if Suspicion.Breaks(prices, exits[k]) {
        Suspicion.PricedIsHex(tokenValues, exits[k]);
      }
    }
  }

  lemma {:induction false} AboveHolds(suspiciousValue: string, tokenValues: string, exits: seq<BridgeExit>)
    requires suspiciousValue != "" || tokenValues != ""
    requires Suspicion.Readable(suspiciousValue, tokenValues)
    requires AlwaysAbove(suspiciousValue, Suspicion.PricesOf(tokenValues).value)
    requires Suspicion.AllCounted(exits) && Accounting.WithdrawalValue(exits) > 0
    ensures Suspicion.Check(suspiciousValue, tokenValues, exits) == Suspicion.Verdict(true)
  {
    Suspicion.CheckOfReadable(suspiciousValue, tokenValues, exits);
    if !Suspicion.StopsUnpriced(Suspicion.PricesOf(tokenValues).value, exits) {
      AboveTotal(suspiciousValue, tokenValues, exits);
    }
  }

  lemma {:induction false} AboveTotal(suspiciousValue: string, tokenValues: string, exits: seq<BridgeExit>)
    requires Suspicion.PricesOf(tokenValues).Success?
    requires AlwaysAbove(suspiciousValue, Suspicion.PricesOf(tokenValues).value)
    requires Suspicion.AllCounted(exits) && Accounting.WithdrawalValue(exits) > 0
    requires !Suspicion.StopsUnpriced(Suspicion.PricesOf(tokenValues).value, exits)
    ensures var prices, limit := Suspicion.PricesOf(tokenValues).value, Suspicion.LimitOf(suspiciousValue);
            !Suspicion.StopsBroken(prices, exits) && limit.Success? && Suspicion.Total(prices, exits) > limit.value
  {
    var k := SomeValue(exits);
    NothingBreaks(suspiciousValue, tokenValues, exits);
    EveryExitPriced(Suspicion.PricesOf(tokenValues).value, exits, k);
    TokenAbove(suspiciousValue, tokenValues, exits, k);
  }

  lemma EveryExitPriced(prices: Suspicion.Prices, exits: seq<BridgeExit>, k: nat)
    requires k < |exits| && Suspicion.AllCounted(exits) && !Suspicion.StopsUnpriced(prices, exits)
    requires forall j :: 0 <= j < |exits| ==> !Suspicion.Breaks(prices, exits[j])
    ensures Suspicion.Priced(prices, exits[k])
  {
    assert exits[k] in exits;
  }

  /** One exit of value in a configured token takes the total above the limit. */
  lemma {:induction false} TokenAbove(suspiciousValue: string, tokenValues: string, exits: seq<BridgeExit>, k: nat)
    requires Suspicion.PricesOf(tokenValues).Success?
    requires AlwaysAbove(suspiciousValue, Suspicion.PricesOf(tokenValues).value)
    requires k < |exits| && Suspicion.Priced(Suspicion.PricesOf(tokenValues).value, exits[k])
    requires ValueBE(AmountBytes(exits[k])) > 0
    ensures var limit := Suspicion.LimitOf(suspiciousValue);
            limit.Success? && Suspicion.Total(Suspicion.PricesOf(tokenValues).value, exits) > limit.value
  {
    var prices := Suspicion.PricesOf(tokenValues).value;
    Suspicion.PricedIsHex(tokenValues, exits[k]);
    Suspicion.TotalRemove(prices, exits, k);
    AmountTimes(ValueBE(AmountBytes(exits[k])), prices[Suspicion.PriceID(exits[k])].dollarValue);
  }

  lemma AmountTimes(amount: nat, dollars: nat)
    requires amount > 0
    ensures Suspicion.FloorTimes(amount, 1, dollars) >= dollars
  {
    assert amount * dollars == (amount - 1) * dollars + dollars;
  }
}
