/** Whole runs of the router: any calls by any origins, blocks passing, and any change elsewhere on the chain. */
module RouterRuns {
  import opened Common
  import opened RouterBallot
  import opened RouterDispatch
  import opened RouterReentry
  import opened RouterTheorems

  datatype Action =
    | Advance(blocks: nat)
    | Elsewhere(outside: nat)
    | Submit(origin: Origin, call: RuntimeCall, depth: nat)

  datatype Chain = Chain(world: World, block: nat)

  /** A dispatch that fails, or is cut off for nesting too deeply, leaves no trace. */
  function Act(cfg: Config, s: Chain, a: Action): Chain {
    match a
    case Advance(blocks) => s.(block := Min(s.block + blocks, cfg.maxBlock))
    case Elsewhere(outside) => s.(world := s.world.(outside := outside))
    case Submit(origin, call, depth) =>
      var outcome := Dispatch(cfg, s.world, s.block, origin, call, depth);
      if outcome.Done? then s.(world := outcome.world) else s
  }

  function Run(cfg: Config, actions: seq<Action>): Chain {
    if actions == [] then Chain(World([], 0), 0) else Act(cfg, Run(cfg, Front(actions)), Last(actions))
  }

  /** Every run, nested executions included and whatever calls are stored, is a history of one-at-a-time steps. */
  lemma {:induction false} RunIsHistory(cfg: Config, actions: seq<Action>)
    ensures HistoryAt(cfg, Run(cfg, actions).world.journal, Run(cfg, actions).block)
  {
    if actions == [] {
    } else {
      RunIsHistory(cfg, Front(actions));
      var s := Run(cfg, Front(actions));
      match Last(actions)
      case Submit(origin, call, depth) =>
        if Dispatch(cfg, s.world, s.block, origin, call, depth).Done? {
          DispatchKeeps(cfg, s.world, s.block, origin, call, depth);
        }
      case _ =>
    }
  }

  /** Over any run, the record of each proposal below the last id is the replay of its votes and executions. */
  lemma RunsAreSafe(cfg: Config, actions: seq<Action>, i: ProposalId)
    requires i < U64_MAX
    ensures var j := Run(cfg, actions).world.journal;
            && (i in Live(j) ==> i in Records(j))
            && (i in Records(j) ==>
                  var p := Records(j)[i];
                  && (p.executed <==> Executions(j, i) > 0)
                  && p.voters == VotersOf(j, i) && Distinct(p.voters)
                  && p.yea == VotesCast(j, i, true) && p.nay == VotesCast(j, i, false)
                  && p.yea + p.nay == |p.voters| <= cfg.maxVotersPerProposal
                  && (p.passThreshold > 10_000 || p.end == cfg.maxBlock ==> Executions(j, i) == 0))
  {
    var j := Run(cfg, actions).world.journal;
    RunIsHistory(cfg, actions);
    RecordsAreBelowNextId(cfg, j);
    ExecutedExactlyWhen(cfg, j, i);
    TallyIsReplay(cfg, j, i);
    if i in Records(j) && (Records(j)[i].passThreshold > 10_000 || Records(j)[i].end == cfg.maxBlock) {
      NeverExecuted(cfg, j, i);
    }
  }

  // ---------------------------------------------------------------------------------------------------
  // At most once

  /** At no submission of the run was `i` ready with a stored call that comes back to `i` inside an attempt. */
  ghost predicate NeverRepeats(cfg: Config, actions: seq<Action>, i: ProposalId) {
    actions != [] ==>
      && NeverRepeats(cfg, Front(actions), i)
      && (Last(actions).Submit? ==>
            var s := Run(cfg, Front(actions)); !RepeatsItself(ReadyCalls(cfg, s.world.journal, s.block), i))
  }

  /** Such a proposal is executed at most once over the run. */
  lemma {:induction false} ExecutedAtMostOnce(cfg: Config, actions: seq<Action>, i: ProposalId)
    requires i < U64_MAX && NeverRepeats(cfg, actions, i)
    ensures Executions(Run(cfg, actions).world.journal, i) <= 1
  {
    if actions == [] {
    } else {
      ExecutedAtMostOnce(cfg, Front(actions), i);
      RunIsHistory(cfg, Front(actions));
      var s := Run(cfg, Front(actions));
      match Last(actions)
      case Submit(origin, call, depth) =>
        if Dispatch(cfg, s.world, s.block, origin, call, depth).Done? {
          var stored := ReadyCalls(cfg, s.world.journal, s.block);
          ExecutedAtMostOnceMore(cfg, s.world, s.block, origin, call, depth, stored, i);
        }
      case _ =>
    }
  }

  /** The condition holds of every proposal while stored calls swallow no failure. */
  lemma {:induction false} PlainNeverRepeats(cfg: Config, actions: seq<Action>, i: ProposalId)
    requires NeverSwallows(cfg)
    ensures NeverRepeats(cfg, actions, i)
  {
    if actions == [] {
    } else {
      PlainNeverRepeats(cfg, Front(actions), i);
      var s := Run(cfg, Front(actions));
      NeverRepeatsItself(ReadyCalls(cfg, s.world.journal, s.block), i);
    }
  }

  /** The condition is not necessary: a proposal that attempts nothing but its own execution meets itself inside an
      attempt, but its execution never comes to an end, so it is not executed at all. */
  lemma {:induction false} SelfAttemptNeverFinishes(cfg: Config, w: World, block: nat, who: AccountId, i: ProposalId,
                                                    depth: nat)
    requires ExecuteVerdict(cfg, w.journal, block, Signed(who), i).Pass?
    requires cfg.decode(Records(w.journal)[i].call) == Some(Attempt(Execute(i)))
    ensures Dispatch(cfg, w, block, Signed(who), Execute(i), depth).Unfinished?
    ensures RepeatsItself(ReadyCalls(cfg, w.journal, block), i)
    decreases depth
  {
    var stored := ReadyCalls(cfg, w.journal, block);
    assert VisitsSwallowed(stored, stored[i], i, 0);
    if depth == 0 {
    } else {
      SelfAttemptNeverFinishes(cfg, w, block, cfg.palletAccount, i, depth - 1);
    }
  }

  // ---------------------------------------------------------------------------------------------------
  // What a dispatch leaves in storage

  /** Every proposal that a finished dispatch visits outside attempts is on record as executed, and is in storage
      exactly if one of its executions was not cancelled later. */
  lemma VisitedIsStoredExactlyWhen(cfg: Config, w: World, block: nat, origin: Origin, c: RuntimeCall, depth: nat,
                                   stored: Calls, i: ProposalId, any: nat)
    requires HistoryAt(cfg, w.journal, block) && Covers(cfg, w.journal, block, stored)
    requires Dispatch(cfg, w, block, origin, c, depth).Done?
    requires i < U64_MAX && VisitsPlainly(stored, c, i, any)
    ensures var j' := Dispatch(cfg, w, block, origin, c, depth).world.journal;
            && IsExecuted(j', i)
            && (!RepeatsItself(stored, i) ==> Executions(j', i) == 1)
            && (i in Live(j') <==> exists k: nat :: StandingExecution(j', i, k))
  {
    var j' := Dispatch(cfg, w, block, origin, c, depth).world.journal;
    DispatchKeeps(cfg, w, block, origin, c, depth);
    VisitedAreExecuted(cfg, w, block, origin, c, depth, stored, i, any);
    ExecutedExactlyWhen(cfg, j', i);
    if !RepeatsItself(stored, i) {
      ExecutedAtMostOnceMore(cfg, w, block, origin, c, depth, stored, i);
    }
    StoredUnlessCancelledLater(cfg, j', i);
  }

  ghost predicate OnlySingleCalls(stored: Calls) {
    forall i :: i in stored ==> !stored[i].Batch? && !stored[i].Attempt?
  }

  /** Where no stored call is a composite, a dispatch follows a chain of executions, and every proposal on a
      finished chain is stored, marked executed, even if the chain ends by cancelling it. */
  lemma {:induction false} ChainIsStoredExecuted(cfg: Config, w: World, block: nat, origin: Origin, c: RuntimeCall,
                                                 depth: nat, stored: Calls, i: ProposalId)
    requires Covers(cfg, w.journal, block, stored)
    requires !c.Batch? && !c.Attempt? && OnlySingleCalls(stored)
    requires Dispatch(cfg, w, block, origin, c, depth).Done? && Visits(stored, c, i, depth)
    ensures var j' := Dispatch(cfg, w, block, origin, c, depth).world.journal; i in Live(j') && IsExecuted(j', i)
    decreases depth
  {
    if c.id != i {
      assert Ready(cfg, w.journal, c.id, block);
      ChainIsStoredExecuted(cfg, w, block, Signed(cfg.palletAccount), stored[c.id], depth - 1, stored, i);
    }
  }

  /** In particular a proposal that cancels itself is on record as cancelled and yet stored as executed. */
  lemma SelfCancelIsUndone(cfg: Config, w: World, block: nat, who: AccountId, i: ProposalId)
    requires ExecuteVerdict(cfg, w.journal, block, Signed(who), i).Pass?
    requires cfg.decode(Records(w.journal)[i].call) == Some(Cancel(i)) && cfg.routerAdmin(Signed(cfg.palletAccount))
    ensures var outcome := Dispatch(cfg, w, block, Signed(who), Execute(i), 1);
            && outcome.Done?
            && Entry(block, Cancelled(i, Signed(cfg.palletAccount))) in outcome.world.journal
            && i in Live(outcome.world.journal)
            && Records(outcome.world.journal)[i] == Records(w.journal)[i].(executed := true)
  {
    var agent := Signed(cfg.palletAccount);
    assert Dispatch(cfg, w, block, agent, Cancel(i), 0) == Done(Append(w, block, Cancelled(i, agent)));
    var w1 := Append(w, block, Cancelled(i, agent));
    assert Last(w1.journal) == Entry(block, Cancelled(i, agent));
    var w2 := Append(w1, block, Executed(i, Records(w.journal)[i].(executed := true)));
    assert Dispatch(cfg, w, block, Signed(who), Execute(i), 1) == Done(w2);
    assert w2.journal[|w1.journal| - 1] == Entry(block, Cancelled(i, agent));
  }

  /** A proposal that is out of storage when a dispatch starts is out of storage when it ends. */
  lemma {:induction false} RemovedStaysRemoved(cfg: Config, w: World, block: nat, origin: Origin, c: RuntimeCall,
                                               depth: nat, i: ProposalId)
    requires i < NextId(w.journal) && i !in Live(w.journal)
    requires Dispatch(cfg, w, block, origin, c, depth).Done?
    ensures i !in Live(Dispatch(cfg, w, block, origin, c, depth).world.journal)
    decreases depth, c, 1
  {
    match c
    case Batch(calls) => RemovedStaysRemovedAll(cfg, w, block, origin, calls, depth, i);
    case Attempt(inner) =>
      if Dispatch(cfg, w, block, origin, inner, depth).Done? {
        RemovedStaysRemoved(cfg, w, block, origin, inner, depth, i);
      }
    case Execute(id) =>
      var call := cfg.decode(Records(w.journal)[id].call).value;
      RemovedStaysRemoved(cfg, w, block, Signed(cfg.palletAccount), call, depth - 1, i);
    case _ =>
  }

  lemma {:induction false} RemovedStaysRemovedAll(cfg: Config, w: World, block: nat, origin: Origin,
                                                  calls: seq<RuntimeCall>, depth: nat, i: ProposalId)
    requires i < NextId(w.journal) && i !in Live(w.journal)
    requires DispatchAll(cfg, w, block, origin, calls, depth).Done?
    ensures i !in Live(DispatchAll(cfg, w, block, origin, calls, depth).world.journal)
    decreases depth, calls, 0
  {
    if calls == [] {
    } else {
      var w1 := Dispatch(cfg, w, block, origin, calls[0], depth).world;
      DispatchExtends(cfg, w, block, origin, calls[0], depth);
      RemovedStaysRemoved(cfg, w, block, origin, calls[0], depth, i);
      RemovedStaysRemovedAll(cfg, w1, block, origin, calls[1..], depth, i);
    }
  }

  // ---------------------------------------------------------------------------------------------------
  // Exhausted proposal ids

  /** Terms under which a proposal passes without votes as soon as the block has passed. */
  function OpenTerms(call: Bytes): Terms {
    Terms(Global, call, None, Some(0), Some(0), Some(0))
  }

  function Proposing(call: Bytes): Action {
    Submit(Signed(0), Propose(OpenTerms(call)), 0)
  }

  lemma ProposingAppends(cfg: Config, s: Chain, call: Bytes)
    ensures var id := NextId(s.world.journal);
            var p := NewProposal(cfg, id, s.block, 0, OpenTerms(call));
            Act(cfg, s, Proposing(call)) == s.(world := Append(s.world, s.block, Created(id, p)))
  {
    var id := NextId(s.world.journal);
    var w' := Append(s.world, s.block, Created(id, NewProposal(cfg, id, s.block, 0, OpenTerms(call))));
    assert Dispatch(cfg, s.world, s.block, Signed(0), Propose(OpenTerms(call)), 0) == Done(w');
  }

  /** `n` proposals were made at block 0, and nothing was executed. */
  ghost predicate OnlyProposed(cfg: Config, actions: seq<Action>, n: ProposalId) {
    var s := Run(cfg, actions);
    NextId(s.world.journal) == n && s.block == 0 && Executions(s.world.journal, U64_MAX) == 0
  }

  /** A run can make any number of proposals that fits in 64 bits. */
  lemma {:induction false} IdsCanBeExhausted(cfg: Config, n: ProposalId)
    ensures exists actions :: OnlyProposed(cfg, actions, n)
    decreases n
  {
    if n == 0 {
      assert OnlyProposed(cfg, [], 0);
    } else {
      IdsCanBeExhausted(cfg, n - 1);
      var actions :| OnlyProposed(cfg, actions, n - 1);
      var s, more := Run(cfg, actions), actions + [Proposing([])];
      ProposingAppends(cfg, s, []);
      assert Front(more) == actions;
      assert Run(cfg, more) == Act(cfg, s, Proposing([]));
      assert Front(Run(cfg, more).world.journal) == s.world.journal;
      assert OnlyProposed(cfg, more, n);
    }
  }

  /** With ids exhausted: proposing under the last id and executing it a block later. */
  lemma LastIdRound(cfg: Config, s: Chain, call: Bytes)
    requires NextId(s.world.journal) == U64_MAX && s.block < cfg.maxBlock
    requires cfg.decode(call) == Some(Batch([]))
    ensures var execute := Submit(Signed(0), Execute(U64_MAX), 1);
            var s' := Act(cfg, Act(cfg, Act(cfg, s, Proposing(call)), Advance(1)), execute);
            && NextId(s'.world.journal) == U64_MAX && s'.block == s.block + 1
            && Executions(s'.world.journal, U64_MAX) == Executions(s.world.journal, U64_MAX) + 1
  {
    ProposingAppends(cfg, s, call);
    var p := NewProposal(cfg, U64_MAX, s.block, 0, OpenTerms(call));
    var w1 := Append(s.world, s.block, Created(U64_MAX, p));
    assert Front(w1.journal) == s.world.journal;
    assert Records(w1.journal)[U64_MAX] == p && p.end == s.block && U64_MAX in Live(w1.journal);
    var s2 := Chain(w1, s.block + 1);
    assert ExecuteVerdict(cfg, w1.journal, s2.block, Signed(0), U64_MAX).Pass?;
    assert Dispatch(cfg, w1, s2.block, Signed(cfg.palletAccount), Batch([]), 0) == Done(w1);
    var w3 := Append(w1, s2.block, Executed(U64_MAX, p.(executed := true)));
    assert Dispatch(cfg, w1, s2.block, Signed(0), Execute(U64_MAX), 1) == Done(w3);
    assert Front(w3.journal) == w1.journal;
  }

  lemma RunOneMore(cfg: Config, actions: seq<Action>, a: Action)
    ensures Run(cfg, actions + [a]) == Act(cfg, Run(cfg, actions), a)
  {
    assert Front(actions + [a]) == actions;
  }

  lemma RunThreeMore(cfg: Config, actions: seq<Action>, a: Action, b: Action, c: Action)
    ensures Run(cfg, actions + [a] + [b] + [c]) == Act(cfg, Act(cfg, Act(cfg, Run(cfg, actions), a), b), c)
  {
    RunOneMore(cfg, actions, a);
    RunOneMore(cfg, actions + [a], b);
    RunOneMore(cfg, actions + [a] + [b], c);
  }

  /** What exhausting the ids breaks: some run executes the last id twice. */
  lemma LastIdIsExecutedTwice(cfg: Config, call: Bytes)
    requires cfg.maxBlock >= 2 && cfg.decode(call) == Some(Batch([]))
    ensures exists actions :: Executions(Run(cfg, actions).world.journal, U64_MAX) == 2
  {
    IdsCanBeExhausted(cfg, U64_MAX);
    var actions :| OnlyProposed(cfg, actions, U64_MAX);
    var execute := Submit(Signed(0), Execute(U64_MAX), 1);
    LastIdRound(cfg, Run(cfg, actions), call);
    RunThreeMore(cfg, actions, Proposing(call), Advance(1), execute);
    var again := actions + [Proposing(call)] + [Advance(1)] + [execute];
    LastIdRound(cfg, Run(cfg, again), call);
    RunThreeMore(cfg, again, Proposing(call), Advance(1), execute);
    assert Executions(Run(cfg, again + [Proposing(call)] + [Advance(1)] + [execute]).world.journal, U64_MAX) == 2;
  }

  /** With ids exhausted, a new proposal takes the place of the one under the last id: its votes remain on record
      but are gone from storage. */
  lemma LastIdLosesVotes(cfg: Config, w: World, block: nat, who: AccountId, t: Terms)
    requires NextId(w.journal) == U64_MAX && ProposeVerdict(cfg, w.journal, Signed(who), t).Pass?
    requires U64_MAX in Records(w.journal) && VotersOf(w.journal, U64_MAX) != []
    ensures var outcome := Dispatch(cfg, w, block, Signed(who), Propose(t), 0);
            && outcome.Done?
            && U64_MAX in Records(outcome.world.journal)
            && Records(outcome.world.journal)[U64_MAX].voters == []
            && VotersOf(outcome.world.journal, U64_MAX) == VotersOf(w.journal, U64_MAX)
  {
    var w' := Append(w, block, Created(U64_MAX, NewProposal(cfg, U64_MAX, block, who, t)));
    assert Dispatch(cfg, w, block, Signed(who), Propose(t), 0) == Done(w');
    assert Front(w'.journal) == w.journal;
  }

  /** And if the proposal under the last id itself makes a proposal, the stale copy that `execute` holds is
      written over the new one. */
  lemma StaleCopyIsWrittenBack(cfg: Config, w: World, block: nat, who: AccountId, t: Terms)
    requires NextId(w.journal) == U64_MAX && ExecuteVerdict(cfg, w.journal, block, Signed(who), U64_MAX).Pass?
    requires cfg.decode(Records(w.journal)[U64_MAX].call) == Some(Propose(t))
    requires ProposeVerdict(cfg, w.journal, Signed(cfg.palletAccount), t).Pass?
    ensures var p := Records(w.journal)[U64_MAX];
            var outcome := Dispatch(cfg, w, block, Signed(who), Execute(U64_MAX), 1);
            && outcome.Done?
            && outcome.world.journal == w.journal
                 + [Entry(block, Created(U64_MAX, NewProposal(cfg, U64_MAX, block, cfg.palletAccount, t)))]
                 + [Entry(block, Executed(U64_MAX, p.(executed := true)))]
            && Records(outcome.world.journal)[U64_MAX] == p.(executed := true)
  {
    var p := Records(w.journal)[U64_MAX];
    var w1 := Append(w, block, Created(U64_MAX, NewProposal(cfg, U64_MAX, block, cfg.palletAccount, t)));
    assert Dispatch(cfg, w, block, Signed(cfg.palletAccount), Propose(t), 0) == Done(w1);
    var w2 := Append(w1, block, Executed(U64_MAX, p.(executed := true)));
    assert Dispatch(cfg, w, block, Signed(who), Execute(U64_MAX), 1) == Done(w2);
    assert Front(w2.journal) == w1.journal;
  }

  // ---------------------------------------------------------------------------------------------------
  // Swallowed failures

  /** A stored call for proposal 1 that executes proposal 0 and then attempts proposal 1 again. */
  function Reentrant(): RuntimeCall {
    Attempt(Batch([Execute(0), Attempt(Execute(1))]))
  }

  /** Proposals 0 and 1 are ready, with an empty composite and `Reentrant` as their stored calls. */
  ghost predicate TwoReady(cfg: Config, w: World, block: nat) {
    && 0 in Live(w.journal) && 1 in Live(w.journal) && 0 in Records(w.journal) && 1 in Records(w.journal)
    && ReadyVerdict(cfg, Records(w.journal)[0], block).Pass?
    && ReadyVerdict(cfg, Records(w.journal)[1], block).Pass?
    && cfg.decode(Records(w.journal)[0].call) == Some(Batch([]))
    && cfg.decode(Records(w.journal)[1].call) == Some(Reentrant())
  }

  lemma DispatchPair(cfg: Config, w: World, block: nat, origin: Origin, a: RuntimeCall, b: RuntimeCall, depth: nat)
    ensures var first := Dispatch(cfg, w, block, origin, a, depth);
            DispatchAll(cfg, w, block, origin, [a, b], depth) ==
              if first.Done? then Dispatch(cfg, first.world, block, origin, b, depth) else first
  {
    assert [a, b][1..] == [b];
    var first := Dispatch(cfg, w, block, origin, a, depth);
    if first.Done? {
      var second := Dispatch(cfg, first.world, block, origin, b, depth);
      assert DispatchAll(cfg, first.world, block, origin, [b], depth) ==
             if second.Done? then DispatchAll(cfg, second.world, block, origin, [b][1..], depth) else second;
      assert [b][1..] == [];
    }
  }

  /** The inner execution of proposal 1: its attempt fails, because proposal 0 is executed by now, and the
      failure is swallowed. */
  lemma InnerExecution(cfg: Config, w: World, block: nat)
    requires 1 in Live(w.journal) && 1 in Records(w.journal) && ReadyVerdict(cfg, Records(w.journal)[1], block).Pass?
    requires cfg.decode(Records(w.journal)[1].call) == Some(Reentrant())
    requires IsExecuted(w.journal, 0) && 0 in Live(w.journal)
    ensures var p := Records(w.journal)[1];
            Dispatch(cfg, w, block, Signed(cfg.palletAccount), Execute(1), 1) ==
              Done(Append(w, block, Executed(1, p.(executed := true))))
  {
    var agent := Signed(cfg.palletAccount);
    assert Dispatch(cfg, w, block, agent, Execute(0), 0) == Failed(ProposalAlreadyExecuted);
    var parts := [Execute(0), Attempt(Execute(1))];
    DispatchPair(cfg, w, block, agent, parts[0], parts[1], 0);
    assert Dispatch(cfg, w, block, agent, Batch(parts), 0) == Failed(ProposalAlreadyExecuted);
    assert Dispatch(cfg, w, block, agent, Reentrant(), 0) == Done(w);
  }

  /** The stored call of proposal 1: proposal 0 is executed, and then proposal 1 within its own execution. */
  lemma ReentrantCall(cfg: Config, w: World, block: nat)
    requires TwoReady(cfg, w, block)
    ensures var p0, p1 := Records(w.journal)[0], Records(w.journal)[1];
            var w0 := Append(w, block, Executed(0, p0.(executed := true)));
            Dispatch(cfg, w, block, Signed(cfg.palletAccount), Reentrant(), 1) ==
              Done(Append(w0, block, Executed(1, p1.(executed := true))))
  {
    var agent := Signed(cfg.palletAccount);
    var p0, p1 := Records(w.journal)[0], Records(w.journal)[1];
    var w0 := Append(w, block, Executed(0, p0.(executed := true)));
    assert Dispatch(cfg, w, block, agent, Batch([]), 0) == Done(w);
    assert Dispatch(cfg, w, block, agent, Execute(0), 1) == Done(w0);
    assert Front(w0.journal) == w.journal;
    assert Records(w0.journal) == Records(w.journal)[0 := p0.(executed := true)];
    InnerExecution(cfg, w0, block);
    var w1 := Append(w0, block, Executed(1, p1.(executed := true)));
    var parts := [Execute(0), Attempt(Execute(1))];
    DispatchPair(cfg, w, block, agent, parts[0], parts[1], 1);
    assert Dispatch(cfg, w0, block, agent, parts[1], 1) == Done(w1);
    assert Dispatch(cfg, w, block, agent, Batch(parts), 1) == Done(w1);
  }

  /** Executing proposal 1 records its execution twice. */
  lemma ReentrantIsExecutedTwice(cfg: Config, w: World, block: nat, who: AccountId)
    requires TwoReady(cfg, w, block)
    ensures var outcome := Dispatch(cfg, w, block, Signed(who), Execute(1), 2);
            outcome.Done? && Executions(outcome.world.journal, 1) == Executions(w.journal, 1) + 2
  {
    var p0, p1 := Records(w.journal)[0], Records(w.journal)[1];
    var w0 := Append(w, block, Executed(0, p0.(executed := true)));
    var w1 := Append(w0, block, Executed(1, p1.(executed := true)));
    var w2 := Append(w1, block, Executed(1, p1.(executed := true)));
    ReentrantCall(cfg, w, block);
    assert Dispatch(cfg, w, block, Signed(who), Execute(1), 2) == Done(w2);
    assert Front(w0.journal) == w.journal && Front(w1.journal) == w0.journal && Front(w2.journal) == w1.journal;
    assert Executions(w0.journal, 1) == Executions(w.journal, 1);
    assert Executions(w1.journal, 1) == Executions(w0.journal, 1) + 1;
    assert Executions(w2.journal, 1) == Executions(w1.journal, 1) + 1;
  }

  lemma TwoProposed(cfg: Config, empty: Bytes, reentrant: Bytes) returns (actions: seq<Action>)
    requires cfg.maxBlock >= 1
    requires cfg.decode(empty) == Some(Batch([])) && cfg.decode(reentrant) == Some(Reentrant())
    ensures var s := Run(cfg, actions); s.block == 1 && TwoReady(cfg, s.world, 1) && Executions(s.world.journal, 1) == 0
  {
    var none: seq<Action> := [];
    var s := Run(cfg, none);
    assert s == Chain(World([], 0), 0);
    ProposingAppends(cfg, s, empty);
    var p0, p1 := NewProposal(cfg, 0, 0, 0, OpenTerms(empty)), NewProposal(cfg, 1, 0, 0, OpenTerms(reentrant));
    var w1 := Append(s.world, 0, Created(0, p0));
    assert Front(w1.journal) == s.world.journal && Last(w1.journal).note == Created(0, p0);
    assert Records(w1.journal) == map[][0 := p0] && Live(w1.journal) == {} + {0} && NextId(w1.journal) == 1;
    assert Executions(w1.journal, 1) == 0;
    ProposingAppends(cfg, Chain(w1, 0), reentrant);
    var w2 := Append(w1, 0, Created(1, p1));
    assert Front(w2.journal) == w1.journal && Last(w2.journal).note == Created(1, p1);
    assert Records(w2.journal) == Records(w1.journal)[1 := p1];
    RunThreeMore(cfg, none, Proposing(empty), Proposing(reentrant), Advance(1));
    actions := none + [Proposing(empty)] + [Proposing(reentrant)] + [Advance(1)];
    assert Run(cfg, actions) == Chain(w2, 1);
  }

  /** What swallowing failures breaks: with these two calls stored, some run executes a proposal twice. So the
      condition of `ExecutedAtMostOnce` cannot be dropped. */
  lemma SwallowingExecutesTwice(cfg: Config, empty: Bytes, reentrant: Bytes)
    requires cfg.maxBlock >= 1
    requires cfg.decode(empty) == Some(Batch([])) && cfg.decode(reentrant) == Some(Reentrant())
    ensures exists actions :: Executions(Run(cfg, actions).world.journal, 1) == 2 && !NeverRepeats(cfg, actions, 1)
  {
    var actions := TwoProposed(cfg, empty, reentrant);
    ReentrantIsExecutedTwice(cfg, Run(cfg, actions).world, 1, 0);
    var execute := Submit(Signed(0), Execute(1), 2);
    RunOneMore(cfg, actions, execute);
    var twice := actions + [execute];
    assert Executions(Run(cfg, twice).world.journal, 1) == 2;
    if NeverRepeats(cfg, twice, 1) {
      ExecutedAtMostOnce(cfg, twice, 1);
    }
  }
}
