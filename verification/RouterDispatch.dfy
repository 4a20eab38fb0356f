/**
Dispatching runtime calls on the router's history, including stored calls that are themselves router calls.

`depth` bounds how many `execute` calls may be open at once. A dispatch that needs more is `Unfinished`;
`DepthIsIrrelevant` shows that a dispatch that finishes has the same outcome at every larger depth.
*/
module RouterDispatch {
  import opened Common
  import opened RouterBallot

  /** The committed history and the state of the rest of the chain. */
  datatype World = World(journal: Journal, outside: nat)

  datatype Outcome = Done(world: World) | Failed(error: Error) | Unfinished

  function Append(w: World, block: nat, note: Note): World {
    w.(journal := w.journal + [Entry(block, note)])
  }

  function Settle(v: Verdict, w: World): Outcome {
    match v
    case Pass => Done(w)
    case Fail(e) => Failed(e)
  }

  function DispatchPropose(cfg: Config, w: World, block: nat, origin: Origin, t: Terms): Outcome {
    match ProposeVerdict(cfg, w.journal, origin, t)
    case Fail(e) => Failed(e)
    case Pass =>
      var id := NextId(w.journal);
      Done(Append(w, block, Created(id, NewProposal(cfg, id, block, origin.who, t))))
  }

  function DispatchVote(cfg: Config, w: World, block: nat, origin: Origin, id: ProposalId, aye: bool): Outcome {
    match VoteVerdict(cfg, w.journal, block, origin, id)
    case Fail(e) => Failed(e)
    case Pass => Done(Append(w, block, Voted(id, origin.who, aye)))
  }

  function DispatchForeign(cfg: Config, w: World, origin: Origin, tag: nat): Outcome {
    match cfg.foreign(tag, origin, w.outside)
    case None => Failed(ForeignError)
    case Some(outside) => Done(w.(outside := outside))
  }

  function Dispatch(cfg: Config, w: World, block: nat, origin: Origin, c: RuntimeCall, depth: nat): Outcome
    decreases depth, c, 1
  {
    match c
    case Propose(t) => DispatchPropose(cfg, w, block, origin, t)
    case Vote(id, aye) => DispatchVote(cfg, w, block, origin, id, aye)
    case Cancel(id) => Settle(CancelVerdict(cfg, w.journal, origin, id), Append(w, block, Cancelled(id, origin)))
    case Foreign(tag) => DispatchForeign(cfg, w, origin, tag)
    case Batch(calls) => DispatchAll(cfg, w, block, origin, calls, depth)
    case Attempt(inner) =>
      var outcome := Dispatch(cfg, w, block, origin, inner, depth);
      if outcome.Failed? then Done(w) else outcome
    case Execute(id) =>
      match ExecuteVerdict(cfg, w.journal, block, origin, id)
      case Fail(e) => Failed(e)
      case Pass =>
        if depth == 0 then Unfinished else
          var p := Records(w.journal)[id];
          match Dispatch(cfg, w, block, Signed(cfg.palletAccount), cfg.decode(p.call).value, depth - 1)
          case Unfinished => Unfinished
          case Failed(_) => Failed(ExecutionFailed)
          case Done(w1) => Done(Append(w1, block, Executed(id, p.(executed := true))))
  }

  function DispatchAll(cfg: Config, w: World, block: nat, origin: Origin, calls: seq<RuntimeCall>, depth: nat): Outcome
    decreases depth, calls, 0
  {
    if calls == [] then Done(w) else
      var first := Dispatch(cfg, w, block, origin, calls[0], depth);
      if first.Done? then DispatchAll(cfg, first.world, block, origin, calls[1..], depth) else first
  }

  // ---------------------------------------------------------------------------------------------------
  // Calls that swallow no failure

  predicate Plain(c: RuntimeCall)
    decreases c, 1
  {
    match c
    case Attempt(_) => false
    case Batch(calls) => PlainAll(calls)
    case _ => true
  }

  predicate PlainAll(calls: seq<RuntimeCall>)
    decreases calls, 0
  {
    calls == [] || (Plain(calls[0]) && PlainAll(calls[1..]))
  }

  /** Stored calls swallow no failure. Calls that are submitted directly may. */
  ghost predicate NeverSwallows(cfg: Config) {
    forall b :: cfg.decode(b).Some? ==> Plain(cfg.decode(b).value)
  }

  // ---------------------------------------------------------------------------------------------------
  // Histories

  /** The ballot rules: when may `e` follow the journal `j`? An execution writes the proposal's latest record,
      marked executed, and needs that record to be ready but for its executed flag. The last id, which is handed
      out again and again once ids are exhausted, is exempt. */
  ghost predicate Admitted(cfg: Config, j: Journal, e: Entry) {
    && (j != [] ==> Last(j).block <= e.block)
    && e.block <= cfg.maxBlock
    && match e.note
       case Created(id, p) =>
         && id == NextId(j)
         && (exists t, who :: ProposeVerdict(cfg, j, Signed(who), t).Pass?
                              && p == NewProposal(cfg, id, e.block, who, t))
       case Voted(id, who, _) => VoteVerdict(cfg, j, e.block, Signed(who), id).Pass?
       case Executed(id, p) =>
         && id in Records(j) && p.id == id
         && (id < U64_MAX ==>
               && ReadyVerdict(cfg, Records(j)[id].(executed := false), e.block).Pass?
               && p == Records(j)[id].(executed := true))
       case Cancelled(id, canceller) => CancelVerdict(cfg, j, canceller, id).Pass?
  }

  ghost predicate History(cfg: Config, j: Journal) {
    j == [] || (History(cfg, Front(j)) && Admitted(cfg, Front(j), Last(j)))
  }

  /** A history that can go on at `block`. */
  ghost predicate HistoryAt(cfg: Config, j: Journal, block: nat) {
    && History(cfg, j)
    && (j != [] ==> Last(j).block <= block)
    && block <= cfg.maxBlock
  }

  /** `j'` goes on from `j` with entries of one block. */
  ghost predicate Extends(j: Journal, j': Journal, block: nat) {
    && j <= j' && NextId(j) <= NextId(j')
    && forall k :: |j| <= k < |j'| ==> j'[k].block == block
  }

  lemma {:induction false} DispatchExtends(cfg: Config, w: World, block: nat, origin: Origin, c: RuntimeCall,
                                           depth: nat)
    requires Dispatch(cfg, w, block, origin, c, depth).Done?
    ensures Extends(w.journal, Dispatch(cfg, w, block, origin, c, depth).world.journal, block)
    decreases depth, c, 1
  {
    match c
    case Batch(calls) => DispatchAllExtends(cfg, w, block, origin, calls, depth);
    case Attempt(inner) =>
      if Dispatch(cfg, w, block, origin, inner, depth).Done? {
        DispatchExtends(cfg, w, block, origin, inner, depth);
      }
    case Execute(id) =>
      var call := cfg.decode(Records(w.journal)[id].call).value;
      DispatchExtends(cfg, w, block, Signed(cfg.palletAccount), call, depth - 1);
    case _ =>
  }

  lemma {:induction false} DispatchAllExtends(cfg: Config, w: World, block: nat, origin: Origin,
                                              calls: seq<RuntimeCall>, depth: nat)
    requires DispatchAll(cfg, w, block, origin, calls, depth).Done?
    ensures Extends(w.journal, DispatchAll(cfg, w, block, origin, calls, depth).world.journal, block)
    decreases depth, calls, 0
  {
    if calls == [] {
    } else {
      DispatchExtends(cfg, w, block, origin, calls[0], depth);
      var w1 := Dispatch(cfg, w, block, origin, calls[0], depth).world;
      DispatchAllExtends(cfg, w1, block, origin, calls[1..], depth);
    }
  }

  lemma {:induction false} DepthIsIrrelevant(cfg: Config, w: World, block: nat, origin: Origin, c: RuntimeCall,
                                             depth: nat, more: nat)
    requires !Dispatch(cfg, w, block, origin, c, depth).Unfinished?
    requires depth <= more
    ensures Dispatch(cfg, w, block, origin, c, more) == Dispatch(cfg, w, block, origin, c, depth)
    decreases depth, c, 1
  {
    match c
    case Batch(calls) => DepthIsIrrelevantAll(cfg, w, block, origin, calls, depth, more);
    case Attempt(inner) => DepthIsIrrelevant(cfg, w, block, origin, inner, depth, more);
    case Execute(id) =>
      if ExecuteVerdict(cfg, w.journal, block, origin, id).Pass? {
        var call := cfg.decode(Records(w.journal)[id].call).value;
        DepthIsIrrelevant(cfg, w, block, Signed(cfg.palletAccount), call, depth - 1, more - 1);
      }
    case _ =>
  }

  lemma {:induction false} DepthIsIrrelevantAll(cfg: Config, w: World, block: nat, origin: Origin,
                                                calls: seq<RuntimeCall>, depth: nat, more: nat)
    requires !DispatchAll(cfg, w, block, origin, calls, depth).Unfinished?
    requires depth <= more
    ensures DispatchAll(cfg, w, block, origin, calls, more) == DispatchAll(cfg, w, block, origin, calls, depth)
    decreases depth, calls, 0
  {
    if calls == [] {
    } else {
      DepthIsIrrelevant(cfg, w, block, origin, calls[0], depth, more);
      var first := Dispatch(cfg, w, block, origin, calls[0], depth);
      if first.Done? {
        DepthIsIrrelevantAll(cfg, first.world, block, origin, calls[1..], depth, more);
      }
    }
  }

  // ---------------------------------------------------------------------------------------------------
  // The unfolding of a call: what a dispatch visits when each `Execute(id)` opens the call stored for `id`

  type Calls = map<ProposalId, RuntimeCall>

  /** `Execute(i)` occurs in the unfolding of `c`, within `d` nested executions. */
  predicate Visits(stored: Calls, c: RuntimeCall, i: ProposalId, d: nat)
    decreases d, c, 1
  {
    match c
    case Execute(id) => id == i || (d > 0 && id in stored && Visits(stored, stored[id], i, d - 1))
    case Batch(calls) => VisitsAll(stored, calls, i, d)
    case Attempt(inner) => Visits(stored, inner, i, d)
    case _ => false
  }

  predicate VisitsAll(stored: Calls, calls: seq<RuntimeCall>, i: ProposalId, d: nat)
    decreases d, calls, 0
  {
    calls != [] && (Visits(stored, calls[0], i, d) || VisitsAll(stored, calls[1..], i, d))
  }

  /** It occurs there outside every attempt, so that its failure fails `c`. */
  predicate VisitsPlainly(stored: Calls, c: RuntimeCall, i: ProposalId, d: nat)
    decreases d, c, 1
  {
    match c
    case Execute(id) => id == i || (d > 0 && id in stored && VisitsPlainly(stored, stored[id], i, d - 1))
    case Batch(calls) => VisitsPlainlyAll(stored, calls, i, d)
    case _ => false
  }

  predicate VisitsPlainlyAll(stored: Calls, calls: seq<RuntimeCall>, i: ProposalId, d: nat)
    decreases d, calls, 0
  {
    calls != [] && (VisitsPlainly(stored, calls[0], i, d) || VisitsPlainlyAll(stored, calls[1..], i, d))
  }

  /** It occurs there inside an attempt, so that its failure may be swallowed. */
  predicate VisitsSwallowed(stored: Calls, c: RuntimeCall, i: ProposalId, d: nat)
    decreases d, c, 1
  {
    match c
    case Execute(id) => d > 0 && id in stored && VisitsSwallowed(stored, stored[id], i, d - 1)
    case Batch(calls) => VisitsSwallowedAll(stored, calls, i, d)
    case Attempt(inner) => Visits(stored, inner, i, d)
    case _ => false
  }

  predicate VisitsSwallowedAll(stored: Calls, calls: seq<RuntimeCall>, i: ProposalId, d: nat)
    decreases d, calls, 0
  {
    calls != [] && (VisitsSwallowed(stored, calls[0], i, d) || VisitsSwallowedAll(stored, calls[1..], i, d))
  }

  lemma {:induction false} VisitsEitherWay(stored: Calls, c: RuntimeCall, i: ProposalId, d: nat)
    ensures Visits(stored, c, i, d) <==> VisitsPlainly(stored, c, i, d) || VisitsSwallowed(stored, c, i, d)
    decreases d, c, 1
  {
    match c
    case Execute(id) => if id != i && d > 0 && id in stored { VisitsEitherWay(stored, stored[id], i, d - 1); }
    case Batch(calls) => VisitsAllEitherWay(stored, calls, i, d);
    case _ =>
  }

  lemma {:induction false} VisitsAllEitherWay(stored: Calls, calls: seq<RuntimeCall>, i: ProposalId, d: nat)
    ensures VisitsAll(stored, calls, i, d) <==>
              VisitsPlainlyAll(stored, calls, i, d) || VisitsSwallowedAll(stored, calls, i, d)
    decreases d, calls, 0
  {
    if calls == [] {
    } else {
      VisitsEitherWay(stored, calls[0], i, d);
      VisitsAllEitherWay(stored, calls[1..], i, d);
    }
  }
}
