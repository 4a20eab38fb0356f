/**
Re-entrant execution keeps the ballot rules.

`execute` dispatches the stored call while it holds a copy of the proposal, and afterwards writes the copy back
marked executed. The results here say that no nested dispatch can have changed more of that record than its
executed flag, so every dispatch, however deeply it nests, extends a history to a history of one-at-a-time steps.
The record under the last proposal id is exempt, because that id is handed out more than once when ids are
exhausted.

Whether a proposal can be executed again within its own execution depends on the stored calls: it takes one that
comes back to its proposal inside an attempt.
*/
module RouterReentry {
  import opened Common
  import opened RouterBallot
  import opened RouterDispatch
  import opened RouterTheorems

  // ---------------------------------------------------------------------------------------------------
  // Every dispatch keeps the ballot rules

  /** The write-back of `execute`, once the nested dispatch has led from `j` to `j1`: the copy that was held is
      still the latest record but for the flag that is being set, so writing it loses nothing. */
  lemma WriteBackIsAdmitted(cfg: Config, j: Journal, j1: Journal, block: nat, id: ProposalId)
    requires History(cfg, j) && HistoryAt(cfg, j1, block) && Extends(j, j1, block)
    requires id in Records(j) && ReadyVerdict(cfg, Records(j)[id], block).Pass?
    ensures id in Records(j1)
    ensures id < U64_MAX ==> Records(j1)[id].(executed := true) == Records(j)[id].(executed := true)
    ensures HistoryAt(cfg, j1 + [Entry(block, Executed(id, Records(j)[id].(executed := true)))], block)
  {
    assert j1[..|j|] == j;
    RecordsOnlyGrow(j1, |j|);
    RecordsAreBelowNextId(cfg, j);
    if id < U64_MAX {
      TallyIsFrozen(cfg, j1, |j|, id, block);
    }
    HistoryGoesOn(cfg, j1, block, Executed(id, Records(j)[id].(executed := true)));
  }

  lemma HistoryGoesOn(cfg: Config, j: Journal, block: nat, note: Note)
    requires HistoryAt(cfg, j, block) && Admitted(cfg, j, Entry(block, note))
    ensures HistoryAt(cfg, j + [Entry(block, note)], block)
  {
    assert Front(j + [Entry(block, note)]) == j;
  }

  lemma ProposeIsAdmitted(cfg: Config, j: Journal, block: nat, who: AccountId, t: Terms)
    requires HistoryAt(cfg, j, block) && ProposeVerdict(cfg, j, Signed(who), t).Pass?
    ensures Admitted(cfg, j, Entry(block, Created(NextId(j), NewProposal(cfg, NextId(j), block, who, t))))
  {
  }

  /** The calls that dispatch nothing further. */
  lemma SimpleCallKeeps(cfg: Config, w: World, block: nat, origin: Origin, c: RuntimeCall, depth: nat)
    requires HistoryAt(cfg, w.journal, block)
    requires !c.Execute? && !c.Batch? && !c.Attempt?
    requires Dispatch(cfg, w, block, origin, c, depth).Done?
    ensures HistoryAt(cfg, Dispatch(cfg, w, block, origin, c, depth).world.journal, block)
  {
    var j := w.journal;
    match c
    case Propose(t) =>
      ProposeIsAdmitted(cfg, j, block, origin.who, t);
      HistoryGoesOn(cfg, j, block, Created(NextId(j), NewProposal(cfg, NextId(j), block, origin.who, t)));
    case Vote(id, aye) => HistoryGoesOn(cfg, j, block, Voted(id, origin.who, aye));
    case Cancel(id) => HistoryGoesOn(cfg, j, block, Cancelled(id, origin));
    case Foreign(_) =>
  }

  /** Main result on re-entrancy: whatever the stored calls are, a finished dispatch extends a history to a
      history. */
  lemma {:induction false} DispatchKeeps(cfg: Config, w: World, block: nat, origin: Origin, c: RuntimeCall, depth: nat)
    requires HistoryAt(cfg, w.journal, block)
    requires Dispatch(cfg, w, block, origin, c, depth).Done?
    ensures HistoryAt(cfg, Dispatch(cfg, w, block, origin, c, depth).world.journal, block)
    decreases depth, c, 1
  {
    match c
    case Batch(calls) => DispatchAllKeeps(cfg, w, block, origin, calls, depth);
    case Attempt(inner) =>
      if Dispatch(cfg, w, block, origin, inner, depth).Done? {
        DispatchKeeps(cfg, w, block, origin, inner, depth);
      }
    case Execute(id) =>
      var agent, call := Signed(cfg.palletAccount), cfg.decode(Records(w.journal)[id].call).value;
      DispatchKeeps(cfg, w, block, agent, call, depth - 1);
      DispatchExtends(cfg, w, block, agent, call, depth - 1);
      var w1 := Dispatch(cfg, w, block, agent, call, depth - 1).world;
      WriteBackIsAdmitted(cfg, w.journal, w1.journal, block, id);
    case _ => SimpleCallKeeps(cfg, w, block, origin, c, depth);
  }

  lemma {:induction false} DispatchAllKeeps(cfg: Config, w: World, block: nat, origin: Origin, calls: seq<RuntimeCall>,
                                            depth: nat)
    requires HistoryAt(cfg, w.journal, block)
    requires DispatchAll(cfg, w, block, origin, calls, depth).Done?
    ensures HistoryAt(cfg, DispatchAll(cfg, w, block, origin, calls, depth).world.journal, block)
    decreases depth, calls, 0
  {
    if calls == [] {
    } else {
      DispatchKeeps(cfg, w, block, origin, calls[0], depth);
      var w1 := Dispatch(cfg, w, block, origin, calls[0], depth).world;
      DispatchAllKeeps(cfg, w1, block, origin, calls[1..], depth);
    }
  }

  // ---------------------------------------------------------------------------------------------------
  // The proposals that are ready to be executed

  /** `execute` would dispatch the call of `i`. */
  ghost predicate Ready(cfg: Config, j: Journal, i: ProposalId, block: nat) {
    i in Live(j) && i in Records(j) && ReadyVerdict(cfg, Records(j)[i], block).Pass?
  }

  /** `stored` holds the calls of all proposals that are ready. */
  ghost predicate Covers(cfg: Config, j: Journal, block: nat, stored: Calls) {
    forall i :: Ready(cfg, j, i, block) ==> i in stored && stored[i] == cfg.decode(Records(j)[i].call).value
  }

  function ReadyCalls(cfg: Config, j: Journal, block: nat): (stored: Calls)
    ensures Covers(cfg, j, block, stored)
  {
    map i | i in Live(j) && i in Records(j) && ReadyVerdict(cfg, Records(j)[i], block).Pass? ::
      cfg.decode(Records(j)[i].call).value
  }

  /** A proposal becomes ready only as time passes. */
  lemma CoversAfter(cfg: Config, j: Journal, block: nat, stored: Calls, e: Entry)
    requires Covers(cfg, j, block, stored)
    requires e.note.Created? ==> block <= e.note.proposal.end
    requires e.note.Voted? ==> e.note.id in Records(j) && block <= Records(j)[e.note.id].end
    requires e.note.Executed? ==> e.note.proposal.executed
    ensures Covers(cfg, j + [e], block, stored)
  {
    assert Front(j + [e]) == j;
    forall i | Ready(cfg, j + [e], i, block)
      ensures i in stored && stored[i] == cfg.decode(Records(j + [e])[i].call).value
    {
      assert Ready(cfg, j, i, block);
    }
  }

  lemma {:induction false} CoversStays(cfg: Config, w: World, block: nat, origin: Origin, c: RuntimeCall, depth: nat,
                                       stored: Calls)
    requires Covers(cfg, w.journal, block, stored) && block <= cfg.maxBlock
    requires Dispatch(cfg, w, block, origin, c, depth).Done?
    ensures Covers(cfg, Dispatch(cfg, w, block, origin, c, depth).world.journal, block, stored)
    decreases depth, c, 1
  {
    match c
    case Batch(calls) => CoversStaysAll(cfg, w, block, origin, calls, depth, stored);
    case Attempt(inner) =>
      if Dispatch(cfg, w, block, origin, inner, depth).Done? {
        CoversStays(cfg, w, block, origin, inner, depth, stored);
      }
    case Execute(id) =>
      var agent, p := Signed(cfg.palletAccount), Records(w.journal)[id];
      var call := cfg.decode(p.call).value;
      CoversStays(cfg, w, block, agent, call, depth - 1, stored);
      var w1 := Dispatch(cfg, w, block, agent, call, depth - 1).world;
      CoversAfter(cfg, w1.journal, block, stored, Entry(block, Executed(id, p.(executed := true))));
    case Foreign(_) =>
    case _ => CoversAfter(cfg, w.journal, block, stored, Last(Dispatch(cfg, w, block, origin, c, depth).world.journal));
  }

  lemma {:induction false} CoversStaysAll(cfg: Config, w: World, block: nat, origin: Origin, calls: seq<RuntimeCall>,
                                          depth: nat, stored: Calls)
    requires Covers(cfg, w.journal, block, stored) && block <= cfg.maxBlock
    requires DispatchAll(cfg, w, block, origin, calls, depth).Done?
    ensures Covers(cfg, DispatchAll(cfg, w, block, origin, calls, depth).world.journal, block, stored)
    decreases depth, calls, 0
  {
    if calls == [] {
    } else {
      CoversStays(cfg, w, block, origin, calls[0], depth, stored);
      var w1 := Dispatch(cfg, w, block, origin, calls[0], depth).world;
      CoversStaysAll(cfg, w1, block, origin, calls[1..], depth, stored);
    }
  }

  // ---------------------------------------------------------------------------------------------------
  // What a finished dispatch executes

  /** A finished dispatch executes nothing that it does not visit. */
  lemma {:induction false} OnlyVisitedAreExecuted(cfg: Config, w: World, block: nat, origin: Origin, c: RuntimeCall,
                                                  depth: nat, stored: Calls, i: ProposalId)
    requires Covers(cfg, w.journal, block, stored) && block <= cfg.maxBlock
    requires Dispatch(cfg, w, block, origin, c, depth).Done? && !Visits(stored, c, i, depth)
    ensures Executions(Dispatch(cfg, w, block, origin, c, depth).world.journal, i) == Executions(w.journal, i)
    decreases depth, c, 1
  {
    match c
    case Batch(calls) => OnlyVisitedAreExecutedAll(cfg, w, block, origin, calls, depth, stored, i);
    case Attempt(inner) =>
      if Dispatch(cfg, w, block, origin, inner, depth).Done? {
        OnlyVisitedAreExecuted(cfg, w, block, origin, inner, depth, stored, i);
      }
    case Execute(id) =>
      assert Ready(cfg, w.journal, id, block);
      OnlyVisitedAreExecuted(cfg, w, block, Signed(cfg.palletAccount), stored[id], depth - 1, stored, i);
    case _ =>
  }

  lemma {:induction false} OnlyVisitedAreExecutedAll(cfg: Config, w: World, block: nat, origin: Origin,
                                                     calls: seq<RuntimeCall>, depth: nat, stored: Calls, i: ProposalId)
    requires Covers(cfg, w.journal, block, stored) && block <= cfg.maxBlock
    requires DispatchAll(cfg, w, block, origin, calls, depth).Done? && !VisitsAll(stored, calls, i, depth)
    ensures Executions(DispatchAll(cfg, w, block, origin, calls, depth).world.journal, i) == Executions(w.journal, i)
    decreases depth, calls, 0
  {
    if calls == [] {
    } else {
      OnlyVisitedAreExecuted(cfg, w, block, origin, calls[0], depth, stored, i);
      CoversStays(cfg, w, block, origin, calls[0], depth, stored);
      var w1 := Dispatch(cfg, w, block, origin, calls[0], depth).world;
      OnlyVisitedAreExecutedAll(cfg, w1, block, origin, calls[1..], depth, stored, i);
    }
  }

  /** So the record of an ended proposal that it does not visit has not moved. */
  lemma UnvisitedIsUntouched(cfg: Config, w: World, block: nat, origin: Origin, c: RuntimeCall, depth: nat,
                             stored: Calls, i: ProposalId)
    requires HistoryAt(cfg, w.journal, block) && Covers(cfg, w.journal, block, stored)
    requires Dispatch(cfg, w, block, origin, c, depth).Done? && !Visits(stored, c, i, depth)
    requires i < U64_MAX && Ended(w.journal, i, block)
    ensures var j' := Dispatch(cfg, w, block, origin, c, depth).world.journal;
            i in Records(j') && Records(j')[i] == Records(w.journal)[i]
  {
    var j, j' := w.journal, Dispatch(cfg, w, block, origin, c, depth).world.journal;
    DispatchKeeps(cfg, w, block, origin, c, depth);
    DispatchExtends(cfg, w, block, origin, c, depth);
    assert j'[..|j|] == j;
    TallyIsFrozen(cfg, j', |j|, i, block);
    OnlyVisitedAreExecuted(cfg, w, block, origin, c, depth, stored, i);
    ExecutedExactlyWhen(cfg, j, i);
    ExecutedExactlyWhen(cfg, j', i);
  }

  lemma {:induction false} DispatchKeepsExecutions(cfg: Config, w: World, block: nat, origin: Origin, c: RuntimeCall,
                                                   depth: nat, i: ProposalId)
    requires Dispatch(cfg, w, block, origin, c, depth).Done?
    ensures Executions(w.journal, i) <= Executions(Dispatch(cfg, w, block, origin, c, depth).world.journal, i)
  {
    var j' := Dispatch(cfg, w, block, origin, c, depth).world.journal;
    DispatchExtends(cfg, w, block, origin, c, depth);
    assert j'[..|w.journal|] == w.journal;
    ExecutionsOnlyGrow(j', |w.journal|, i);
  }

  /** Conversely it executes everything that it visits outside attempts. */
  lemma {:induction false} VisitedAreExecuted(cfg: Config, w: World, block: nat, origin: Origin, c: RuntimeCall,
                                              depth: nat, stored: Calls, i: ProposalId, any: nat)
    requires Covers(cfg, w.journal, block, stored) && block <= cfg.maxBlock
    requires Dispatch(cfg, w, block, origin, c, depth).Done? && VisitsPlainly(stored, c, i, any)
    ensures Executions(w.journal, i) < Executions(Dispatch(cfg, w, block, origin, c, depth).world.journal, i)
    decreases depth, c, 1
  {
    match c
    case Batch(calls) => AllVisitedAreExecuted(cfg, w, block, origin, calls, depth, stored, i, any);
    case Execute(id) =>
      assert Ready(cfg, w.journal, id, block);
      var agent := Signed(cfg.palletAccount);
      if id == i {
        DispatchKeepsExecutions(cfg, w, block, agent, stored[id], depth - 1, i);
      } else {
        VisitedAreExecuted(cfg, w, block, agent, stored[id], depth - 1, stored, i, any - 1);
      }
  }

  lemma {:induction false} AllVisitedAreExecuted(cfg: Config, w: World, block: nat, origin: Origin,
                                                 calls: seq<RuntimeCall>, depth: nat, stored: Calls, i: ProposalId,
                                                 any: nat)
    requires Covers(cfg, w.journal, block, stored) && block <= cfg.maxBlock
    requires DispatchAll(cfg, w, block, origin, calls, depth).Done? && VisitsPlainlyAll(stored, calls, i, any)
    ensures Executions(w.journal, i) < Executions(DispatchAll(cfg, w, block, origin, calls, depth).world.journal, i)
    decreases depth, calls, 0
  {
    var w1 := Dispatch(cfg, w, block, origin, calls[0], depth).world;
    if VisitsPlainly(stored, calls[0], i, any) {
      VisitedAreExecuted(cfg, w, block, origin, calls[0], depth, stored, i, any);
      DispatchKeepsExecutions(cfg, w1, block, origin, Batch(calls[1..]), depth, i);
    } else {
      DispatchKeepsExecutions(cfg, w, block, origin, calls[0], depth, i);
      CoversStays(cfg, w, block, origin, calls[0], depth, stored);
      AllVisitedAreExecuted(cfg, w1, block, origin, calls[1..], depth, stored, i, any);
    }
  }

  // ---------------------------------------------------------------------------------------------------
  // At most once

  /** A call that visits `i` outside every attempt, where the stored call of `i` does so too, never succeeds: the
      executions of `i` would have to nest without end. */
  lemma {:induction false} CyclicNeverFinishes(cfg: Config, w: World, block: nat, origin: Origin, c: RuntimeCall,
                                               depth: nat, stored: Calls, i: ProposalId, any: nat, again: nat)
    requires Covers(cfg, w.journal, block, stored) && block <= cfg.maxBlock
    requires VisitsPlainly(stored, c, i, any)
    requires i in stored && VisitsPlainly(stored, stored[i], i, again)
    ensures !Dispatch(cfg, w, block, origin, c, depth).Done?
    decreases depth, c, 1
  {
    match c
    case Batch(calls) => AllCyclicNeverFinish(cfg, w, block, origin, calls, depth, stored, i, any, again);
    case Execute(id) =>
      if ExecuteVerdict(cfg, w.journal, block, origin, id).Pass? && depth > 0 {
        assert Ready(cfg, w.journal, id, block);
        var agent, rest := Signed(cfg.palletAccount), if id == i then again else any - 1;
        CyclicNeverFinishes(cfg, w, block, agent, stored[id], depth - 1, stored, i, rest, again);
      }
  }

  lemma {:induction false} AllCyclicNeverFinish(cfg: Config, w: World, block: nat, origin: Origin,
                                                calls: seq<RuntimeCall>, depth: nat, stored: Calls, i: ProposalId,
                                                any: nat, again: nat)
    requires Covers(cfg, w.journal, block, stored) && block <= cfg.maxBlock
    requires VisitsPlainlyAll(stored, calls, i, any)
    requires i in stored && VisitsPlainly(stored, stored[i], i, again)
    ensures !DispatchAll(cfg, w, block, origin, calls, depth).Done?
    decreases depth, calls, 0
  {
    if VisitsPlainly(stored, calls[0], i, any) {
      CyclicNeverFinishes(cfg, w, block, origin, calls[0], depth, stored, i, any, again);
    } else {
      var first := Dispatch(cfg, w, block, origin, calls[0], depth);
      if first.Done? {
        CoversStays(cfg, w, block, origin, calls[0], depth, stored);
        AllCyclicNeverFinish(cfg, first.world, block, origin, calls[1..], depth, stored, i, any, again);
      }
    }
  }

  /** The stored call of `i` comes back to `i` inside an attempt. */
  ghost predicate RepeatsItself(stored: Calls, i: ProposalId) {
    i in stored && exists d: nat :: VisitsSwallowed(stored, stored[i], i, d)
  }

  /** Otherwise the call of `i` is not executed again within its own execution. */
  lemma NotWithinItself(cfg: Config, w: World, block: nat, origin: Origin, depth: nat, stored: Calls, i: ProposalId)
    requires Covers(cfg, w.journal, block, stored) && block <= cfg.maxBlock
    requires i in stored && !RepeatsItself(stored, i)
    requires Dispatch(cfg, w, block, origin, stored[i], depth).Done?
    ensures Executions(Dispatch(cfg, w, block, origin, stored[i], depth).world.journal, i) == Executions(w.journal, i)
  {
    if Visits(stored, stored[i], i, depth) {
      VisitsEitherWay(stored, stored[i], i, depth);
      CyclicNeverFinishes(cfg, w, block, origin, stored[i], depth, stored, i, depth, depth);
    } else {
      OnlyVisitedAreExecuted(cfg, w, block, origin, stored[i], depth, stored, i);
    }
  }

  /** A dispatch executes `i` at most once, and only if it was never executed before. */
  ghost predicate AtMostOnceMore(j: Journal, j': Journal, i: ProposalId) {
    Executions(j', i) == Executions(j, i) || (Executions(j, i) == 0 && Executions(j', i) == 1)
  }

  /** Main result on repetition: a finished dispatch executes `i` at most once and never again, unless the stored
      call of `i` comes back to `i` inside an attempt. */
  lemma {:induction false} ExecutedAtMostOnceMore(cfg: Config, w: World, block: nat, origin: Origin, c: RuntimeCall,
                                                  depth: nat, stored: Calls, i: ProposalId)
    requires HistoryAt(cfg, w.journal, block) && Covers(cfg, w.journal, block, stored)
    requires i < U64_MAX && !RepeatsItself(stored, i)
    requires Dispatch(cfg, w, block, origin, c, depth).Done?
    ensures AtMostOnceMore(w.journal, Dispatch(cfg, w, block, origin, c, depth).world.journal, i)
    decreases depth, c, 1
  {
    match c
    case Batch(calls) => AllExecutedAtMostOnceMore(cfg, w, block, origin, calls, depth, stored, i);
    case Attempt(inner) =>
      if Dispatch(cfg, w, block, origin, inner, depth).Done? {
        ExecutedAtMostOnceMore(cfg, w, block, origin, inner, depth, stored, i);
      }
    case Execute(id) =>
      assert Ready(cfg, w.journal, id, block);
      var agent := Signed(cfg.palletAccount);
      if id == i {
        ExecutedExactlyWhen(cfg, w.journal, i);
        NotWithinItself(cfg, w, block, agent, depth - 1, stored, i);
      } else {
        ExecutedAtMostOnceMore(cfg, w, block, agent, stored[id], depth - 1, stored, i);
      }
    case _ =>
  }

  lemma {:induction false} AllExecutedAtMostOnceMore(cfg: Config, w: World, block: nat, origin: Origin,
                                                     calls: seq<RuntimeCall>, depth: nat, stored: Calls, i: ProposalId)
    requires HistoryAt(cfg, w.journal, block) && Covers(cfg, w.journal, block, stored)
    requires i < U64_MAX && !RepeatsItself(stored, i)
    requires DispatchAll(cfg, w, block, origin, calls, depth).Done?
    ensures AtMostOnceMore(w.journal, DispatchAll(cfg, w, block, origin, calls, depth).world.journal, i)
    decreases depth, calls, 0
  {
    if calls == [] {
    } else {
      ExecutedAtMostOnceMore(cfg, w, block, origin, calls[0], depth, stored, i);
      DispatchKeeps(cfg, w, block, origin, calls[0], depth);
      CoversStays(cfg, w, block, origin, calls[0], depth, stored);
      var w1 := Dispatch(cfg, w, block, origin, calls[0], depth).world;
      AllExecutedAtMostOnceMore(cfg, w1, block, origin, calls[1..], depth, stored, i);
    }
  }

  // ---------------------------------------------------------------------------------------------------
  // Stored calls that do not repeat themselves

  ghost predicate AllPlain(stored: Calls) {
    forall i :: i in stored ==> Plain(stored[i])
  }

  lemma {:induction false} PlainSwallowsNothing(stored: Calls, c: RuntimeCall, i: ProposalId, d: nat)
    requires AllPlain(stored) && Plain(c)
    ensures !VisitsSwallowed(stored, c, i, d)
    decreases d, c, 1
  {
    match c
    case Execute(id) => if d > 0 && id in stored { PlainSwallowsNothing(stored, stored[id], i, d - 1); }
    case Batch(calls) => PlainAllSwallowNothing(stored, calls, i, d);
    case _ =>
  }

  lemma {:induction false} PlainAllSwallowNothing(stored: Calls, calls: seq<RuntimeCall>, i: ProposalId, d: nat)
    requires AllPlain(stored) && PlainAll(calls)
    ensures !VisitsSwallowedAll(stored, calls, i, d)
    decreases d, calls, 0
  {
    if calls == [] {
    } else {
      PlainSwallowsNothing(stored, calls[0], i, d);
      PlainAllSwallowNothing(stored, calls[1..], i, d);
    }
  }

  /** Executing `o` leads, at some depth, to an execution of `i`. */
  ghost predicate Reaches(stored: Calls, o: ProposalId, i: ProposalId) {
    o in stored && exists d: nat :: Visits(stored, stored[o], i, d)
  }

  /** A proposal does not repeat itself if no stored call contains an attempt, or if its own does not lead back
      to it. */
  lemma NeverRepeatsItself(stored: Calls, i: ProposalId)
    requires AllPlain(stored) || !Reaches(stored, i, i)
    ensures !RepeatsItself(stored, i)
  {
    if i in stored {
      forall d: nat ensures !VisitsSwallowed(stored, stored[i], i, d) {
        VisitsEitherWay(stored, stored[i], i, d);
        if AllPlain(stored) {
          PlainSwallowsNothing(stored, stored[i], i, d);
        }
      }
    }
  }

  // ---------------------------------------------------------------------------------------------------
  // When does a dispatch finish?

  /** `i` does not lead back to itself, and is reached from every proposal in `open`. */
  ghost predicate Onward(stored: Calls, open: set<ProposalId>, i: ProposalId) {
    !Reaches(stored, i, i) && forall o :: o in open ==> Reaches(stored, o, i)
  }

  ghost predicate Within(stored: Calls, open: set<ProposalId>, c: RuntimeCall) {
    forall i, d: nat :: Visits(stored, c, i, d) ==> Onward(stored, open, i)
  }

  ghost predicate WithinAll(stored: Calls, open: set<ProposalId>, calls: seq<RuntimeCall>) {
    forall i, d: nat :: VisitsAll(stored, calls, i, d) ==> Onward(stored, open, i)
  }

  lemma WithinBatch(stored: Calls, open: set<ProposalId>, calls: seq<RuntimeCall>)
    requires Within(stored, open, Batch(calls))
    ensures WithinAll(stored, open, calls)
  {
    forall i, d: nat | VisitsAll(stored, calls, i, d) ensures Onward(stored, open, i) {
      assert Visits(stored, Batch(calls), i, d);
    }
  }

  lemma WithinAttempt(stored: Calls, open: set<ProposalId>, inner: RuntimeCall)
    requires Within(stored, open, Attempt(inner))
    ensures Within(stored, open, inner)
  {
    forall i, d: nat | Visits(stored, inner, i, d) ensures Onward(stored, open, i) {
      assert Visits(stored, Attempt(inner), i, d);
    }
  }

  lemma WithinParts(stored: Calls, open: set<ProposalId>, calls: seq<RuntimeCall>)
    requires WithinAll(stored, open, calls) && calls != []
    ensures Within(stored, open, calls[0]) && WithinAll(stored, open, calls[1..])
  {
    forall i, d: nat | Visits(stored, calls[0], i, d) ensures Onward(stored, open, i) {
      assert VisitsAll(stored, calls, i, d);
    }
    forall i, d: nat | VisitsAll(stored, calls[1..], i, d) ensures Onward(stored, open, i) {
      assert VisitsAll(stored, calls, i, d);
    }
  }

  lemma SubsetSize(a: set<ProposalId>, b: set<ProposalId>)
    requires a <= b
    ensures |a| <= |b|
    ensures a != b ==> |a| < |b|
  {
    assert b == a + (b - a);
  }

  /** Opening one more proposal stays within those that are open. */
  lemma OpenOneMore(stored: Calls, open: set<ProposalId>, id: ProposalId)
    requires open <= stored.Keys && id in stored
    requires Within(stored, open, Execute(id))
    ensures id !in open
    ensures |open + {id}| == |open| + 1 <= |stored|
    ensures Within(stored, open + {id}, stored[id])
  {
    assert Visits(stored, Execute(id), id, 0);
    assert id !in open;
    SubsetSize(open + {id}, stored.Keys);
    forall i, d: nat | Visits(stored, stored[id], i, d) ensures Onward(stored, open + {id}, i) {
      assert Visits(stored, Execute(id), i, d + 1);
      assert Reaches(stored, id, i);
    }
  }

  /** `open` holds the proposals that are being executed; each can be opened only once. */
  lemma {:induction false} Finishes(cfg: Config, w: World, block: nat, origin: Origin, c: RuntimeCall, depth: nat,
                                    stored: Calls, open: set<ProposalId>)
    requires Covers(cfg, w.journal, block, stored) && block <= cfg.maxBlock
    requires open <= stored.Keys && |stored| <= |open| + depth
    requires Within(stored, open, c)
    ensures !Dispatch(cfg, w, block, origin, c, depth).Unfinished?
    decreases depth, c, 1
  {
    match c
    case Batch(calls) =>
      WithinBatch(stored, open, calls);
      AllFinish(cfg, w, block, origin, calls, depth, stored, open);
    case Attempt(inner) =>
      WithinAttempt(stored, open, inner);
      Finishes(cfg, w, block, origin, inner, depth, stored, open);
    case Execute(id) =>
      if ExecuteVerdict(cfg, w.journal, block, origin, id).Pass? {
        assert Ready(cfg, w.journal, id, block);
        OpenOneMore(stored, open, id);
        Finishes(cfg, w, block, Signed(cfg.palletAccount), stored[id], depth - 1, stored, open + {id});
      }
    case _ =>
  }

  lemma {:induction false} AllFinish(cfg: Config, w: World, block: nat, origin: Origin, calls: seq<RuntimeCall>,
                                     depth: nat, stored: Calls, open: set<ProposalId>)
    requires Covers(cfg, w.journal, block, stored) && block <= cfg.maxBlock
    requires open <= stored.Keys && |stored| <= |open| + depth
    requires WithinAll(stored, open, calls)
    ensures !DispatchAll(cfg, w, block, origin, calls, depth).Unfinished?
    decreases depth, calls, 0
  {
    if calls == [] {
    } else {
      WithinParts(stored, open, calls);
      Finishes(cfg, w, block, origin, calls[0], depth, stored, open);
      var first := Dispatch(cfg, w, block, origin, calls[0], depth);
      if first.Done? {
        CoversStays(cfg, w, block, origin, calls[0], depth, stored);
        AllFinish(cfg, first.world, block, origin, calls[1..], depth, stored, open);
      }
    }
  }

  /** If no proposal that `c` visits leads back to itself, dispatching `c` ends in success or failure, and nests no
      deeper than there are proposals that are ready. */
  lemma FinishesWhenAcyclic(cfg: Config, w: World, block: nat, origin: Origin, c: RuntimeCall)
    requires block <= cfg.maxBlock
    requires var stored := ReadyCalls(cfg, w.journal, block);
             forall i, d: nat :: Visits(stored, c, i, d) ==> !Reaches(stored, i, i)
    ensures !Dispatch(cfg, w, block, origin, c, |ReadyCalls(cfg, w.journal, block)|).Unfinished?
  {
    var stored := ReadyCalls(cfg, w.journal, block);
    forall i, d: nat | Visits(stored, c, i, d) ensures Onward(stored, {}, i) {
    }
    Finishes(cfg, w, block, origin, c, |stored|, stored, {});
  }
}
