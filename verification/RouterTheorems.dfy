/** What every history of the router satisfies for every proposal id but the last, which is handed out again
    once ids are exhausted. */
module RouterTheorems {
  import opened Common
  import opened RouterBallot
  import opened RouterDispatch
  import opened RouterPassTest

  // ---------------------------------------------------------------------------------------------------
  // Counting notes, independently of the records

  function Executions(j: Journal, i: ProposalId): nat {
    if j == [] then 0
    else Executions(Front(j), i) + (if Last(j).note.Executed? && Last(j).note.id == i then 1 else 0)
  }

  function VotesCast(j: Journal, i: ProposalId, aye: bool): nat {
    if j == [] then 0
    else
      VotesCast(Front(j), i, aye)
      + (if Last(j).note.Voted? && Last(j).note.id == i && Last(j).note.aye == aye then 1 else 0)
  }

  function VotersOf(j: Journal, i: ProposalId): seq<AccountId> {
    if j == [] then []
    else if Last(j).note.Voted? && Last(j).note.id == i then VotersOf(Front(j), i) + [Last(j).note.who]
    else VotersOf(Front(j), i)
  }

  lemma {:induction false} ExecutionsOnlyGrow(j: Journal, k: nat, i: ProposalId)
    requires k <= |j|
    ensures Executions(j[..k], i) <= Executions(j, i)
  {
    if k == |j| {
      assert j[..k] == j;
    } else {
      assert Front(j)[..k] == j[..k];
      ExecutionsOnlyGrow(Front(j), k, i);
    }
  }

  ghost predicate Ended(j: Journal, i: ProposalId, block: nat) {
    i in Records(j) && Records(j)[i].end < block
  }

  ghost predicate IsExecuted(j: Journal, i: ProposalId) {
    i in Records(j) && Records(j)[i].executed
  }

  // ---------------------------------------------------------------------------------------------------
  // Moving along a history

  /** Until proposal ids are exhausted, the next id is above every id in use, so none is used twice. */
  lemma {:induction false} RecordsAreBelowNextId(cfg: Config, j: Journal)
    requires History(cfg, j)
    ensures Live(j) <= Records(j).Keys
    ensures forall id :: id in Records(j) ==> (id < NextId(j) || NextId(j) == U64_MAX) && Records(j)[id].id == id
  {
    if j == [] {
    } else {
      RecordsAreBelowNextId(cfg, Front(j));
    }
  }

  lemma {:induction false} RecordsOnlyGrow(j: Journal, k: nat)
    requires k <= |j|
    ensures Records(j[..k]).Keys <= Records(j).Keys
  {
    if k == |j| {
      assert j[..k] == j;
    } else {
      assert Front(j)[..k] == j[..k];
      RecordsOnlyGrow(Front(j), k);
    }
  }

  lemma {:induction false} HistoryPrefix(cfg: Config, j: Journal, k: nat)
    requires History(cfg, j) && k <= |j|
    ensures History(cfg, j[..k])
    ensures k < |j| ==> Admitted(cfg, j[..k], j[k]) && History(cfg, j[..k + 1])
    ensures k < |j| ==> j[k].block <= Last(j).block
  {
    if k < |j| {
      if k < |j| - 1 {
        HistoryPrefix(cfg, Front(j), k);
        assert Front(j)[..k] == j[..k] && Front(j)[..k + 1] == j[..k + 1];
        assert Last(Front(j)).block <= Last(j).block;
      } else {
        assert j[..k + 1] == j;
      }
    } else {
      assert j[..k] == j;
    }
  }

  /** What the last entry of a history did to the record of `i`. */
  lemma RecordStep(cfg: Config, j: Journal, i: ProposalId)
    requires History(cfg, j) && j != [] && i < U64_MAX
    ensures var before, e := Front(j), Last(j).note;
            match e
            case Created(id, p) =>
              if id == i
              then && i !in Records(before) && i in Records(j) && Records(j)[i] == p
                   && p.voters == [] && p.yea == p.nay == 0 && !p.executed
              else SameIfAny(before, j, i)
            case Voted(id, who, aye) =>
              if id == i
              then && i in Records(before) && i in Records(j)
                   && Records(j)[i] == Tallied(Records(before)[i], who, aye)
                   && Last(j).block <= Records(before)[i].end
                   && who !in Records(before)[i].voters
                   && |Records(before)[i].voters| < cfg.maxVotersPerProposal
              else SameIfAny(before, j, i)
            case Executed(id, _) =>
              if id == i
              then && i in Records(before) && i in Records(j)
                   && Records(j)[i] == Records(before)[i].(executed := true)
                   && ReadyVerdict(cfg, Records(before)[i].(executed := false), Last(j).block).Pass?
              else SameIfAny(before, j, i)
            case Cancelled(_, _) => SameIfAny(before, j, i)
  {
    RecordsAreBelowNextId(cfg, Front(j));
  }

  ghost predicate SameIfAny(j: Journal, j': Journal, i: ProposalId) {
    && (i in Records(j') <==> i in Records(j))
    && (i in Records(j) ==> Records(j')[i] == Records(j)[i])
  }

  ghost predicate SameTerms(p: Proposal, p': Proposal) {
    p'.(yea := p.yea, nay := p.nay, voters := p.voters, executed := p.executed) == p
  }

  /** A proposal's terms never change, votes are only added and an execution is never undone. */
  lemma {:induction false} RecordsEvolve(cfg: Config, j: Journal, k: nat, i: ProposalId)
    requires History(cfg, j) && k <= |j|
    requires i < U64_MAX && i in Records(j[..k])
    ensures i in Records(j)
    ensures var p, p' := Records(j[..k])[i], Records(j)[i];
            SameTerms(p, p') && p.voters <= p'.voters && (p.executed ==> p'.executed)
  {
    if k < |j| {
      assert Front(j)[..k] == j[..k];
      RecordsEvolve(cfg, Front(j), k, i);
      RecordStep(cfg, j, i);
    } else {
      assert j[..k] == j;
    }
  }

  /** After `end`, nothing of a proposal moves but its executed flag. */
  lemma {:induction false} TallyIsFrozen(cfg: Config, j: Journal, k: nat, i: ProposalId, block: nat)
    requires History(cfg, j) && k <= |j|
    requires i < U64_MAX && Ended(j[..k], i, block)
    requires k < |j| ==> block <= j[k].block
    ensures i in Records(j)
    ensures Records(j)[i] == Records(j[..k])[i].(executed := Records(j)[i].executed)
  {
    if k < |j| {
      assert Front(j)[..k] == j[..k];
      TallyIsFrozen(cfg, Front(j), k, i, block);
      RecordStep(cfg, j, i);
      HistoryPrefix(cfg, j, k);
    } else {
      assert j[..k] == j;
    }
  }

  /** So its verdict, while it is not executed, is the same at every later block. */
  lemma VerdictIsFrozen(cfg: Config, j: Journal, k: nat, i: ProposalId, block: nat, later: nat)
    requires History(cfg, j) && k <= |j|
    requires i < U64_MAX && Ended(j[..k], i, block) && block <= later
    requires k < |j| ==> block <= j[k].block
    ensures i in Records(j)
    ensures Records(j)[i].executed == Records(j[..k])[i].executed ==>
              ReadyVerdict(cfg, Records(j)[i], later) == ReadyVerdict(cfg, Records(j[..k])[i], block)
  {
    TallyIsFrozen(cfg, j, k, i, block);
  }

  /** What `propose` records: an empty tally that accepts the vote of any account exactly from now to `end`, if the
      voter list has room at all, and that cannot be executed before. */
  lemma NewProposalIsOpen(cfg: Config, j: Journal, block: nat, who: AccountId, t: Terms, voter: AccountId, b: nat)
    requires block <= cfg.maxBlock
    ensures var p := NewProposal(cfg, NextId(j), block, who, t);
            var j' := j + [Entry(block, Created(p.id, p))];
            && (VoteVerdict(cfg, j', b, Signed(voter), p.id).Pass? <==>
                  block <= b <= p.end && cfg.maxVotersPerProposal > 0)
            && (ExecuteVerdict(cfg, j', b, Signed(voter), p.id).Pass? ==> p.end < b && p.quorum == p.passThreshold == 0)
            && block <= p.end <= cfg.maxBlock
            && (t.votingPeriod.Some? && block + t.votingPeriod.value <= cfg.maxBlock ==>
                  p.end == block + t.votingPeriod.value)
            && forall club: ClubId ::
                 ClubIndex(j', club) == ClubIndex(j, club) + if p.club == Some(club) then [p.id] else []
  {
    var p := NewProposal(cfg, NextId(j), block, who, t);
    assert Front(j + [Entry(block, Created(p.id, p))]) == j;
  }

  // ---------------------------------------------------------------------------------------------------
  // Executions

  /** The executed flag says whether the proposal's call was ever dispatched with success. */
  lemma {:induction false} ExecutedExactlyWhen(cfg: Config, j: Journal, i: ProposalId)
    requires History(cfg, j) && i < U64_MAX
    ensures IsExecuted(j, i) <==> Executions(j, i) > 0
  {
    if j == [] {
    } else {
      ExecutedExactlyWhen(cfg, Front(j), i);
      RecordStep(cfg, j, i);
    }
  }

  lemma {:induction false} VotesAreOnRecord(cfg: Config, j: Journal, i: ProposalId)
    requires History(cfg, j) && i < U64_MAX
    ensures i !in Records(j) ==> VotersOf(j, i) == [] && VotesCast(j, i, true) == VotesCast(j, i, false) == 0
    ensures i in Records(j) ==>
              && Records(j)[i].voters == VotersOf(j, i)
              && Records(j)[i].yea == VotesCast(j, i, true) && Records(j)[i].nay == VotesCast(j, i, false)
              && VotesCast(j, i, true) + VotesCast(j, i, false) == |VotersOf(j, i)| <= cfg.maxVotersPerProposal
  {
    if j == [] {
    } else {
      VotesAreOnRecord(cfg, Front(j), i);
      RecordStep(cfg, j, i);
    }
  }

  lemma {:induction false} VotersAreDistinct(cfg: Config, j: Journal, i: ProposalId)
    requires History(cfg, j) && i < U64_MAX
    ensures Distinct(VotersOf(j, i))
  {
    if j == [] {
    } else {
      VotersAreDistinct(cfg, Front(j), i);
      VotesAreOnRecord(cfg, Front(j), i);
    }
  }

  /** Tally and voter list are exactly the votes in the journal; nobody voted twice, nothing saturated. */
  lemma TallyIsReplay(cfg: Config, j: Journal, i: ProposalId)
    requires History(cfg, j) && i < U64_MAX
    ensures i !in Records(j) ==> VotersOf(j, i) == [] && VotesCast(j, i, true) == VotesCast(j, i, false) == 0
    ensures i in Records(j) ==>
              var p := Records(j)[i];
              && p.voters == VotersOf(j, i) && p.yea == VotesCast(j, i, true) && p.nay == VotesCast(j, i, false)
              && Distinct(p.voters) && p.yea + p.nay == |p.voters| <= cfg.maxVotersPerProposal
  {
    VotesAreOnRecord(cfg, j, i);
    VotersAreDistinct(cfg, j, i);
  }

  /** Every execution was earned: voting was over, and the distinct voters in the journal up to then meet the
      quorum and the exact ratio. */
  lemma {:induction false} ExecutionIsEarned(cfg: Config, j: Journal, k: nat)
    requires History(cfg, j)
    requires k < |j| && j[k].note.Executed? && j[k].note.id < U64_MAX
    ensures var i, before := j[k].note.id, j[..k];
            && i in Records(before)
            && var p := Records(before)[i];
            && p.end < j[k].block
            && Distinct(VotersOf(before, i)) && |VotersOf(before, i)| >= p.quorum
            && VotesCast(before, i, true) * 10_000 >= p.passThreshold * |VotersOf(before, i)|
            && (Executions(j, i) <= 1 ==> Executions(before, i) == 0)
  {
    HistoryPrefix(cfg, j, k);
    var i, before := j[k].note.id, j[..k];
    var p := Records(before)[i];
    TallyIsReplay(cfg, before, i);
    AcceptedIsEarned(p.yea, TotalVotes(p), p.passThreshold);
    assert Front(j[..k + 1]) == before && Last(j[..k + 1]) == j[k];
    ExecutionsOnlyGrow(j, k + 1, i);
  }

  /** The votes on record are within the reach of 32-bit arithmetic: at most 429496 yeas, or a product that
      saturates without moving the quotient. */
  predicate WithinExactReach(j: Journal, i: ProposalId) {
    var yeas, total := VotesCast(j, i, true), |VotersOf(j, i)|;
    total == 0 || yeas <= EXACT_YEAS || U32_MAX / total == yeas * 10_000 / total
  }

  /** Conversely, whatever the configuration, the verdict on such votes is the exact one. Without any votes only
      a zero threshold is met. */
  lemma VerdictIsExact(cfg: Config, j: Journal, i: ProposalId, block: nat)
    requires History(cfg, j) && i < U64_MAX
    requires i in Records(j) && WithinExactReach(j, i)
    ensures var p := Records(j)[i];
            ReadyVerdict(cfg, p, block).Pass? <==>
              && Executions(j, i) == 0
              && p.end < block
              && |VotersOf(j, i)| >= p.quorum
              && VotesCast(j, i, true) * 10_000 >= p.passThreshold * |VotersOf(j, i)|
              && (VotersOf(j, i) == [] ==> p.passThreshold == 0)
              && cfg.decode(p.call).Some?
  {
    TallyIsReplay(cfg, j, i);
    ExecutedExactlyWhen(cfg, j, i);
    var p := Records(j)[i];
    if TotalVotes(p) > 0 {
      ExactWhen(p.yea, TotalVotes(p));
      assert Accepted(p.yea, TotalVotes(p), p.passThreshold) == RatioReached(p.yea, TotalVotes(p), p.passThreshold);
    }
  }

  /** No vote follows an execution. */
  lemma NoVoteAfterExecution(cfg: Config, j: Journal, k: nat, l: nat)
    requires History(cfg, j)
    requires k < l < |j| && j[k].note.Executed? && j[l].note.Voted? && j[k].note.id < U64_MAX
    ensures j[k].note.id != j[l].note.id
  {
    var i, before := j[k].note.id, j[..l];
    HistoryPrefix(cfg, j, l);
    HistoryPrefix(cfg, before, k);
    assert before[k] == j[k] && before[..k] == j[..k];
    RecordsEvolve(cfg, before, k, i);
    assert Records(before)[i].end < j[k].block <= j[l].block;
  }

  /** A threshold above 100%, or an `end` that reached the last block number, is never executed. */
  lemma {:induction false} NeverExecuted(cfg: Config, j: Journal, i: ProposalId)
    requires History(cfg, j) && i < U64_MAX
    requires i in Records(j) && (Records(j)[i].passThreshold > 10_000 || Records(j)[i].end == cfg.maxBlock)
    ensures Executions(j, i) == 0 && !Records(j)[i].executed
  {
    if j == [] {
    } else {
      RecordsAreBelowNextId(cfg, Front(j));
      ExecutedExactlyWhen(cfg, Front(j), i);
      if i in Records(Front(j)) {
        assert Front(j) == j[..|j| - 1];
        RecordsEvolve(cfg, j, |j| - 1, i);
        NeverExecuted(cfg, Front(j), i);
        var p := Records(Front(j))[i];
        PercentIsAtMost10000(p.yea, TotalVotes(p));
      }
    }
  }

  // ---------------------------------------------------------------------------------------------------
  // The club index

  /** A club's index is in increasing order and holds at most 1024 ids over the life of the chain. Only the last
      id can be listed twice. */
  lemma {:induction false} ClubIndexIsIncreasing(cfg: Config, j: Journal, club: ClubId)
    requires History(cfg, j)
    ensures var index := ClubIndex(j, club);
            && |index| <= MAX_CLUB_PROPOSALS
            && (forall a, b :: 0 <= a < b < |index| ==> index[a] < index[b] || index[b] == U64_MAX)
            && (forall i :: i in index ==> i in Records(j))
  {
    if j == [] {
    } else {
      ClubIndexIsIncreasing(cfg, Front(j), club);
      RecordsAreBelowNextId(cfg, Front(j));
      var before := ClubIndex(Front(j), club);
      forall a | 0 <= a < |before|
        ensures before[a] < NextId(Front(j)) || NextId(Front(j)) == U64_MAX
      {
        assert before[a] in before;
      }
    }
  }

  /** It lists exactly the proposals ever made under the club, cancelled ones included. */
  lemma {:induction false} ClubIndexIsExact(cfg: Config, j: Journal, club: ClubId, i: ProposalId)
    requires History(cfg, j) && i < U64_MAX
    ensures i in ClubIndex(j, club) <==> i in Records(j) && Records(j)[i].club == Some(club)
    ensures i in Records(j) ==> (Records(j)[i].scope == Club(club) <==> Records(j)[i].club == Some(club))
  {
    if j == [] {
    } else {
      ClubIndexIsExact(cfg, Front(j), club, i);
      RecordsAreBelowNextId(cfg, Front(j));
    }
  }

  /** Nothing, cancellation included, takes an id out of a club's index. */
  lemma {:induction false} ClubIndexOnlyGrows(j: Journal, k: nat, club: ClubId)
    requires k <= |j|
    ensures ClubIndex(j[..k], club) <= ClubIndex(j, club)
  {
    if k < |j| {
      assert Front(j)[..k] == j[..k];
      ClubIndexOnlyGrows(Front(j), k, club);
    } else {
      assert j[..k] == j;
    }
  }

  // ---------------------------------------------------------------------------------------------------
  // Storage after an execution

  ghost predicate NotCancelledAfter(j: Journal, i: ProposalId, k: nat) {
    forall l :: k < l < |j| ==> !(j[l].note.Cancelled? && j[l].note.id == i)
  }

  /** Entry `k` executed `i`, and no later cancellation names it. */
  ghost predicate StandingExecution(j: Journal, i: ProposalId, k: nat) {
    k < |j| && j[k].note.Executed? && j[k].note.id == i && NotCancelledAfter(j, i, k)
  }

  /** A proposal that was executed is in storage exactly if one of its executions was not cancelled later. */
  lemma {:induction false} StoredUnlessCancelledLater(cfg: Config, j: Journal, i: ProposalId)
    requires History(cfg, j) && i < U64_MAX && Executions(j, i) > 0
    ensures i in Live(j) <==> exists k: nat :: StandingExecution(j, i, k)
  {
    var e := Last(j).note;
    if e.Executed? && e.id == i {
      assert StandingExecution(j, i, |j| - 1);
    } else {
      StoredUnlessCancelledLater(cfg, Front(j), i);
      ExecutedExactlyWhen(cfg, Front(j), i);
      RecordsAreBelowNextId(cfg, Front(j));
      if e.Cancelled? && e.id == i {
        assert j[|j| - 1].note == e;
      } else {
        assert i in Live(j) <==> i in Live(Front(j));
        forall k: nat ensures StandingExecution(j, i, k) <==> StandingExecution(Front(j), i, k) {
          StandingStep(j, i, k);
        }
      }
    }
  }

  lemma StandingStep(j: Journal, i: ProposalId, k: nat)
    requires j != [] && (Last(j).note.id == i ==> Last(j).note.Created? || Last(j).note.Voted?)
    ensures StandingExecution(j, i, k) <==> StandingExecution(Front(j), i, k)
  {
    if StandingExecution(j, i, k) {
      assert forall l :: k < l < |Front(j)| ==> Front(j)[l] == j[l];
    }
  }
}
