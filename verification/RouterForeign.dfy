/** What a dispatch does outside the router: the calls of other pallets that it runs, and what they leave behind. */
module RouterForeign {
  import opened Common
  import opened RouterBallot
  import opened RouterDispatch
  import opened RouterReentry

  /** A call of another pallet and the origin it ran with. */
  datatype Ran = Ran(tag: nat, origin: Origin)

  /** The outside state after these calls in order, or none if one of them fails. */
  function After(cfg: Config, ran: seq<Ran>, outside: nat): Option<nat> {
    if ran == [] then Some(outside) else
      match After(cfg, Front(ran), outside)
      case None => None
      case Some(x) => cfg.foreign(Last(ran).tag, Last(ran).origin, x)
  }

  lemma {:induction false} AfterBoth(cfg: Config, a: seq<Ran>, b: seq<Ran>, outside: nat)
    ensures After(cfg, a + b, outside) ==
              match After(cfg, a, outside) case None => None case Some(x) => After(cfg, b, x)
  {
    if b == [] {
      assert a + b == a;
    } else {
      AfterBoth(cfg, a, Front(b), outside);
      assert Front(a + b) == a + Front(b);
    }
  }

  /** The foreign calls that a dispatch runs and keeps: those of a failed attempt are undone. */
  function Trace(cfg: Config, w: World, block: nat, origin: Origin, c: RuntimeCall, depth: nat): seq<Ran>
    decreases depth, c, 1
  {
    match c
    case Foreign(tag) => [Ran(tag, origin)]
    case Batch(calls) => TraceAll(cfg, w, block, origin, calls, depth)
    case Attempt(inner) =>
      if Dispatch(cfg, w, block, origin, inner, depth).Done? then Trace(cfg, w, block, origin, inner, depth) else []
    case Execute(id) =>
      if depth > 0 && ExecuteVerdict(cfg, w.journal, block, origin, id).Pass? then
        var call := cfg.decode(Records(w.journal)[id].call).value;
        Trace(cfg, w, block, Signed(cfg.palletAccount), call, depth - 1)
      else []
    case _ => []
  }

  function TraceAll(cfg: Config, w: World, block: nat, origin: Origin, calls: seq<RuntimeCall>, depth: nat): seq<Ran>
    decreases depth, calls, 0
  {
    if calls == [] then [] else
      var first := Dispatch(cfg, w, block, origin, calls[0], depth);
      Trace(cfg, w, block, origin, calls[0], depth)
      + if first.Done? then TraceAll(cfg, first.world, block, origin, calls[1..], depth) else []
  }

  /** A finished dispatch leaves the outside state that its foreign calls, each of them a success, make of it. */
  lemma {:induction false} OutsideIsFold(cfg: Config, w: World, block: nat, origin: Origin, c: RuntimeCall, depth: nat)
    requires Dispatch(cfg, w, block, origin, c, depth).Done?
    ensures After(cfg, Trace(cfg, w, block, origin, c, depth), w.outside)
              == Some(Dispatch(cfg, w, block, origin, c, depth).world.outside)
    decreases depth, c, 1
  {
    match c
    case Foreign(tag) => assert Front([Ran(tag, origin)]) == [];
    case Batch(calls) => OutsideIsFoldAll(cfg, w, block, origin, calls, depth);
    case Attempt(inner) =>
      if Dispatch(cfg, w, block, origin, inner, depth).Done? {
        OutsideIsFold(cfg, w, block, origin, inner, depth);
      }
    case Execute(id) =>
      var call := cfg.decode(Records(w.journal)[id].call).value;
      OutsideIsFold(cfg, w, block, Signed(cfg.palletAccount), call, depth - 1);
    case _ =>
  }

  lemma {:induction false} OutsideIsFoldAll(cfg: Config, w: World, block: nat, origin: Origin, calls: seq<RuntimeCall>,
                                            depth: nat)
    requires DispatchAll(cfg, w, block, origin, calls, depth).Done?
    ensures After(cfg, TraceAll(cfg, w, block, origin, calls, depth), w.outside)
              == Some(DispatchAll(cfg, w, block, origin, calls, depth).world.outside)
    decreases depth, calls, 0
  {
    if calls == [] {
    } else {
      OutsideIsFold(cfg, w, block, origin, calls[0], depth);
      var w1 := Dispatch(cfg, w, block, origin, calls[0], depth).world;
      OutsideIsFoldAll(cfg, w1, block, origin, calls[1..], depth);
      AfterBoth(cfg, Trace(cfg, w, block, origin, calls[0], depth), TraceAll(cfg, w1, block, origin, calls[1..], depth),
                w.outside);
    }
  }

  // ---------------------------------------------------------------------------------------------------
  // Calls without attempts

  /** The foreign calls in the unfolding of `c`, from left to right; stored calls run as the pallet's account. */
  function ForeignCalls(stored: Calls, agent: Origin, origin: Origin, c: RuntimeCall, d: nat): seq<Ran>
    decreases d, c, 1
  {
    match c
    case Foreign(tag) => [Ran(tag, origin)]
    case Batch(calls) => ForeignCallsAll(stored, agent, origin, calls, d)
    case Execute(id) => if d > 0 && id in stored then ForeignCalls(stored, agent, agent, stored[id], d - 1) else []
    case _ => []
  }

  function ForeignCallsAll(stored: Calls, agent: Origin, origin: Origin, calls: seq<RuntimeCall>, d: nat): seq<Ran>
    decreases d, calls, 0
  {
    if calls == [] then []
    else ForeignCalls(stored, agent, origin, calls[0], d) + ForeignCallsAll(stored, agent, origin, calls[1..], d)
  }

  /** Where nothing is attempted, a finished dispatch runs exactly these. */
  lemma {:induction false} PlainTrace(cfg: Config, w: World, block: nat, origin: Origin, c: RuntimeCall, depth: nat,
                                      stored: Calls)
    requires Covers(cfg, w.journal, block, stored) && block <= cfg.maxBlock
    requires AllPlain(stored) && Plain(c) && Dispatch(cfg, w, block, origin, c, depth).Done?
    ensures Trace(cfg, w, block, origin, c, depth)
              == ForeignCalls(stored, Signed(cfg.palletAccount), origin, c, depth)
    decreases depth, c, 1
  {
    match c
    case Batch(calls) => PlainTraceAll(cfg, w, block, origin, calls, depth, stored);
    case Execute(id) =>
      assert Ready(cfg, w.journal, id, block);
      PlainTrace(cfg, w, block, Signed(cfg.palletAccount), stored[id], depth - 1, stored);
    case _ =>
  }

  lemma {:induction false} PlainTraceAll(cfg: Config, w: World, block: nat, origin: Origin, calls: seq<RuntimeCall>,
                                         depth: nat, stored: Calls)
    requires Covers(cfg, w.journal, block, stored) && block <= cfg.maxBlock
    requires AllPlain(stored) && PlainAll(calls) && DispatchAll(cfg, w, block, origin, calls, depth).Done?
    ensures TraceAll(cfg, w, block, origin, calls, depth)
              == ForeignCallsAll(stored, Signed(cfg.palletAccount), origin, calls, depth)
    decreases depth, calls, 0
  {
    if calls == [] {
    } else {
      PlainTrace(cfg, w, block, origin, calls[0], depth, stored);
      CoversStays(cfg, w, block, origin, calls[0], depth, stored);
      var w1 := Dispatch(cfg, w, block, origin, calls[0], depth).world;
      PlainTraceAll(cfg, w1, block, origin, calls[1..], depth, stored);
    }
  }

  /** So its effect outside the router is the effect of those calls, one after the other. */
  lemma PlainEffect(cfg: Config, w: World, block: nat, origin: Origin, c: RuntimeCall, depth: nat)
    requires block <= cfg.maxBlock && AllPlain(ReadyCalls(cfg, w.journal, block)) && Plain(c)
    requires Dispatch(cfg, w, block, origin, c, depth).Done?
    ensures var stored, agent := ReadyCalls(cfg, w.journal, block), Signed(cfg.palletAccount);
            After(cfg, ForeignCalls(stored, agent, origin, c, depth), w.outside)
              == Some(Dispatch(cfg, w, block, origin, c, depth).world.outside)
  {
    PlainTrace(cfg, w, block, origin, c, depth, ReadyCalls(cfg, w.journal, block));
    OutsideIsFold(cfg, w, block, origin, c, depth);
  }

  // ---------------------------------------------------------------------------------------------------
  // Foreign calls that fail

  /** The unfolding of `c` holds, outside every attempt, a foreign call that fails in every outside state. */
  ghost predicate MustFail(cfg: Config, stored: Calls, origin: Origin, c: RuntimeCall, d: nat)
    decreases d, c, 1
  {
    match c
    case Foreign(tag) => forall outside :: cfg.foreign(tag, origin, outside) == None
    case Batch(calls) => OneMustFail(cfg, stored, origin, calls, d)
    case Execute(id) =>
      d > 0 && id in stored && MustFail(cfg, stored, Signed(cfg.palletAccount), stored[id], d - 1)
    case _ => false
  }

  ghost predicate OneMustFail(cfg: Config, stored: Calls, origin: Origin, calls: seq<RuntimeCall>, d: nat)
    decreases d, calls, 0
  {
    calls != [] && (MustFail(cfg, stored, origin, calls[0], d) || OneMustFail(cfg, stored, origin, calls[1..], d))
  }

  /** Such a call is never dispatched with success, at any depth. */
  lemma {:induction false} FailureIsPassedOn(cfg: Config, w: World, block: nat, origin: Origin, c: RuntimeCall,
                                             depth: nat, stored: Calls, any: nat)
    requires Covers(cfg, w.journal, block, stored) && block <= cfg.maxBlock
    requires MustFail(cfg, stored, origin, c, any)
    ensures !Dispatch(cfg, w, block, origin, c, depth).Done?
    decreases depth, c, 1
  {
    match c
    case Batch(calls) => FailureIsPassedOnAll(cfg, w, block, origin, calls, depth, stored, any);
    case Execute(id) =>
      if ExecuteVerdict(cfg, w.journal, block, origin, id).Pass? && depth > 0 {
        assert Ready(cfg, w.journal, id, block);
        FailureIsPassedOn(cfg, w, block, Signed(cfg.palletAccount), stored[id], depth - 1, stored, any - 1);
      }
    case Foreign(_) =>
  }

  lemma {:induction false} FailureIsPassedOnAll(cfg: Config, w: World, block: nat, origin: Origin,
                                                calls: seq<RuntimeCall>, depth: nat, stored: Calls, any: nat)
    requires Covers(cfg, w.journal, block, stored) && block <= cfg.maxBlock
    requires OneMustFail(cfg, stored, origin, calls, any)
    ensures !DispatchAll(cfg, w, block, origin, calls, depth).Done?
    decreases depth, calls, 0
  {
    if MustFail(cfg, stored, origin, calls[0], any) {
      FailureIsPassedOn(cfg, w, block, origin, calls[0], depth, stored, any);
    } else {
      var first := Dispatch(cfg, w, block, origin, calls[0], depth);
      if first.Done? {
        CoversStays(cfg, w, block, origin, calls[0], depth, stored);
        FailureIsPassedOnAll(cfg, first.world, block, origin, calls[1..], depth, stored, any);
      }
    }
  }

  /** Executing a proposal that stores one foreign call: the call runs as the pallet's account. If it fails, so does
      the execution; otherwise the outside state is what it made and the proposal is recorded as executed. */
  lemma ForeignExecution(cfg: Config, w: World, block: nat, who: AccountId, id: ProposalId, tag: nat, depth: nat)
    requires ExecuteVerdict(cfg, w.journal, block, Signed(who), id).Pass? && depth > 0
    requires cfg.decode(Records(w.journal)[id].call) == Some(Foreign(tag))
    ensures var outcome := Dispatch(cfg, w, block, Signed(who), Execute(id), depth);
            match cfg.foreign(tag, Signed(cfg.palletAccount), w.outside)
            case None => outcome == Failed(ExecutionFailed)
            case Some(outside) =>
              var record := Records(w.journal)[id].(executed := true);
              outcome == Done(World(w.journal + [Entry(block, Executed(id, record))], outside))
  {
    var call := Dispatch(cfg, w, block, Signed(cfg.palletAccount), Foreign(tag), depth - 1);
    match cfg.foreign(tag, Signed(cfg.palletAccount), w.outside)
    case None => assert call == Failed(ForeignError);
    case Some(outside) => assert call == Done(w.(outside := outside));
  }
}
