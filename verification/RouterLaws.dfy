/**
The laws of the router: what each call answers and records, read from the notes by position.

They hold for every proposal id but the last, which is handed out again once ids are exhausted; those that do not
depend on a proposal's terms hold for all ids.
*/
module RouterLaws {
  import opened Common
  import opened Readings
  import opened RouterBallot
  import opened RouterDispatch
  import opened RouterTheorems
  import opened RouterReentry
  import opened RouterRuns

  // ---------------------------------------------------------------------------------------------------
  // Notes about a proposal

  function Proposes(id: ProposalId): Entry -> bool {
    (e: Entry) => e.note.Created? && e.note.id == id
  }

  function VotesOn(id: ProposalId): Entry -> bool {
    (e: Entry) => e.note.Voted? && e.note.id == id
  }

  function Ayes(id: ProposalId): Entry -> bool {
    (e: Entry) => e.note.Voted? && e.note.id == id && e.note.aye
  }

  function VotedBy(id: ProposalId, who: AccountId): Entry -> bool {
    (e: Entry) => e.note.Voted? && e.note.id == id && e.note.who == who
  }

  function Executes(id: ProposalId): Entry -> bool {
    (e: Entry) => e.note.Executed? && e.note.id == id
  }

  function Cancels(id: ProposalId): Entry -> bool {
    (e: Entry) => e.note.Cancelled? && e.note.id == id
  }

  /** The proposal was written to storage or removed from it. */
  function Moves(id: ProposalId): Entry -> bool {
    (e: Entry) => !e.note.Voted? && e.note.id == id
  }

  ghost predicate StoredAt(j: Journal, id: ProposalId, k: nat) {
    Latest(j, Moves(id), k) && !j[k].note.Cancelled?
  }

  /** The latest note that moved the proposal was not a cancellation. */
  ghost predicate IsStored(j: Journal, id: ProposalId) {
    exists k: nat :: StoredAt(j, id, k)
  }

  lemma {:induction false} StoredIsRead(j: Journal, id: ProposalId)
    ensures id in Live(j) <==> IsStored(j, id)
  {
    if j == [] {
    } else {
      StoredIsRead(Front(j), id);
      forall k: nat
        ensures StoredAt(j, id, k) <==>
                  if Moves(id)(Last(j)) then k == |j| - 1 && !Last(j).note.Cancelled? else StoredAt(Front(j), id, k)
      {
        LatestStep(j, Moves(id), k);
      }
      if Moves(id)(Last(j)) {
        assert StoredAt(j, id, |j| - 1) <==> !Last(j).note.Cancelled?;
      } else if IsStored(Front(j), id) {
        var k: nat :| StoredAt(Front(j), id, k);
        assert StoredAt(j, id, k);
      }
    }
  }

  /** Voters, tally and executions are counted from the notes. */
  lemma {:induction false} VotesAreRead(j: Journal, id: ProposalId, who: AccountId)
    ensures |VotersOf(j, id)| == Count(j, VotesOn(id)) && VotesCast(j, id, true) == Count(j, Ayes(id))
    ensures who in VotersOf(j, id) <==> Ever(j, VotedBy(id, who))
    ensures Executions(j, id) > 0 <==> Ever(j, Executes(id))
  {
    if j == [] {
    } else {
      VotesAreRead(Front(j), id, who);
      EverStep(j, VotedBy(id, who));
      EverStep(j, Executes(id));
    }
  }

  /** A record carries the terms of the note that created it, the only one to do so. */
  lemma {:induction false} TermsAreAsProposed(cfg: Config, j: Journal, id: ProposalId)
    requires History(cfg, j) && id < U64_MAX
    ensures id in Records(j) <==> Ever(j, Proposes(id))
    ensures forall k: nat :: k < |j| && Proposes(id)(j[k]) ==>
              && Latest(j, Proposes(id), k)
              && id in Records(j) && SameTerms(j[k].note.proposal, Records(j)[id])
  {
    if j == [] {
    } else {
      TermsAreAsProposed(cfg, Front(j), id);
      RecordStep(cfg, j, id);
      EverStep(j, Proposes(id));
      forall k: nat | k < |j| && Proposes(id)(j[k])
        ensures Latest(j, Proposes(id), k) && id in Records(j) && SameTerms(j[k].note.proposal, Records(j)[id])
      {
        LatestStep(j, Proposes(id), k);
        if k < |j| - 1 {
          assert Front(j)[k] == j[k];
          assert Ever(Front(j), Proposes(id));
        }
      }
    }
  }

  // ---------------------------------------------------------------------------------------------------
  // Propose

  function ProposesAny(): Entry -> bool {
    (e: Entry) => e.note.Created?
  }

  function ProposesUnder(club: ClubId): Entry -> bool {
    (e: Entry) => e.note.Created? && e.note.proposal.scope == Club(club)
  }

  lemma {:induction false} ProposalsAreCounted(j: Journal, club: ClubId)
    ensures NextId(j) == Min(Count(j, ProposesAny()), U64_MAX)
    ensures |ClubIndex(j, club)| == Count(j, ProposesUnder(club))
  {
    if j == [] {
    } else {
      ProposalsAreCounted(Front(j), club);
    }
  }

  /** What `propose` answers and, with given or default terms, records. */
  lemma ProposeLaw(cfg: Config, w: World, block: nat, origin: Origin, t: Terms, depth: nat)
    ensures var outcome := Dispatch(cfg, w, block, origin, Propose(t), depth);
            if !origin.Signed? then outcome == Failed(BadOrigin)
            else if t.metadata.Some? && cfg.maxMetadataLen < |t.metadata.value| then outcome == Failed(MetadataTooLarge)
            else if t.scope.Club? && 1024 <= Count(w.journal, ProposesUnder(t.scope.club))
            then outcome == Failed(ClubIndexOverflow)
            else exists p: Proposal :: outcome == Done(World(w.journal + [Entry(block, Created(p.id, p))], w.outside))
                             && p.id == Min(Count(w.journal, ProposesAny()), U64_MAX)
                             && IsProposed(cfg, block, origin.who, t, p)
  {
    if origin.Signed? {
      ProposalsAreCounted(w.journal, if t.scope.Club? then t.scope.club else 0);
      NewProposalIsProposed(cfg, NextId(w.journal), block, origin.who, t);
    }
  }

  lemma NewProposalIsProposed(cfg: Config, id: ProposalId, block: nat, who: AccountId, t: Terms)
    ensures IsProposed(cfg, block, who, t, NewProposal(cfg, id, block, who, t))
  {
  }

  /** The record has the proposer's terms and the defaults for those left open, and nobody has voted. */
  ghost predicate IsProposed(cfg: Config, block: nat, who: AccountId, t: Terms, p: Proposal) {
    && p.proposer == who && p.scope == t.scope && p.call == t.call && p.metadata == t.metadata
    && (p.club == match t.scope case Club(c) => Some(c) case Global => None)
    && p.start == block
    && (t.votingPeriod == None ==> p.end == Min(block + cfg.defaultVotingPeriod, cfg.maxBlock))
    && (t.votingPeriod.Some? ==> p.end == Min(block + t.votingPeriod.value, cfg.maxBlock))
    && (if t.quorum == None then p.quorum == cfg.defaultQuorum else Some(p.quorum) == t.quorum)
    && (if t.passThreshold == None then p.passThreshold == cfg.defaultPassThreshold
        else Some(p.passThreshold) == t.passThreshold)
    && p.voters == [] && p.yea == 0 && p.nay == 0 && !p.executed
  }

  // ---------------------------------------------------------------------------------------------------
  // Vote

  /** What `vote` answers, and that it records one vote of the signer. */
  lemma VoteLaw(cfg: Config, w: World, block: nat, origin: Origin, id: ProposalId, aye: bool, depth: nat)
    requires History(cfg, w.journal) && id < U64_MAX
    ensures var outcome, j := Dispatch(cfg, w, block, origin, Vote(id, aye), depth), w.journal;
            && (!origin.Signed? ==> outcome == Failed(BadOrigin))
            && (origin.Signed? && !IsStored(j, id) ==> outcome == Failed(ProposalNotFound))
            && forall k: nat :: origin.Signed? && IsStored(j, id) && Latest(j, Proposes(id), k) ==>
                 outcome ==
                   if !(j[k].note.proposal.start <= block <= j[k].note.proposal.end) then Failed(VotingClosed)
                   else if Ever(j, VotedBy(id, origin.who)) then Failed(AlreadyVoted)
                   else if Count(j, VotesOn(id)) >= cfg.maxVotersPerProposal then Failed(VotersOverflow)
                   else Done(World(j + [Entry(block, Voted(id, origin.who, aye))], w.outside))
  {
    StoredIsRead(w.journal, id);
    TermsAreAsProposed(cfg, w.journal, id);
    TallyIsReplay(cfg, w.journal, id);
    VotesAreRead(w.journal, id, if origin.Signed? then origin.who else 0);
  }

  // ---------------------------------------------------------------------------------------------------
  // Execute

  /** The percentage of yeas, times 100, that 32 bits give. */
  function Percent(yeas: nat, total: nat): nat {
    if total == 0 then 0 else Min(yeas * 10_000, 0xFFFF_FFFF) / total
  }

  /** The checks of `execute`, on the votes in the notes and the terms proposed. */
  lemma ExecuteLaw(cfg: Config, j: Journal, block: nat, origin: Origin, id: ProposalId)
    requires History(cfg, j) && id < U64_MAX
    ensures var v := ExecuteVerdict(cfg, j, block, origin, id);
            && (!origin.Signed? ==> v == Fail(BadOrigin))
            && (origin.Signed? && !IsStored(j, id) ==> v == Fail(ProposalNotFound))
            && forall k: nat :: origin.Signed? && IsStored(j, id) && Latest(j, Proposes(id), k) ==>
                 var p, yeas, total := j[k].note.proposal, Count(j, Ayes(id)), Count(j, VotesOn(id));
                 v == if Ever(j, Executes(id)) then Fail(ProposalAlreadyExecuted)
                      else if block <= p.end then Fail(VotingClosed)
                      else if total < p.quorum then Fail(QuorumNotReached)
                      else if Percent(yeas, total) < p.passThreshold then Fail(ProposalNotPassed)
                      else if cfg.decode(p.call) == None then Fail(InvalidCallEncoding)
                      else Pass
  {
    StoredIsRead(j, id);
    TermsAreAsProposed(cfg, j, id);
    TallyIsReplay(cfg, j, id);
    ExecutedExactlyWhen(cfg, j, id);
    VotesAreRead(j, id, 0);
  }

  /** The note that a proposal leaves, found again in any history that goes on from it. */
  lemma ProposedNote(cfg: Config, w: World, block: nat, who: AccountId, t: Terms, j: Journal)
    requires History(cfg, j) && NextId(w.journal) < U64_MAX
    requires Dispatch(cfg, w, block, Signed(who), Propose(t), 0).Done?
    requires Dispatch(cfg, w, block, Signed(who), Propose(t), 0).world.journal <= j
    ensures var k := |w.journal|;
            k < |j| && Latest(j, Proposes(NextId(w.journal)), k) && IsProposed(cfg, block, who, t, j[k].note.proposal)
  {
    var k, id := |w.journal|, NextId(w.journal);
    ProposeLaw(cfg, w, block, Signed(who), t, 0);
    ProposalsAreCounted(w.journal, 0);
    assert Proposes(id)(j[k]);
    TermsAreAsProposed(cfg, j, id);
  }

  /** When the terms of a proposal let an account vote, at any later moment of any history. */
  lemma TermsDecideVotes(cfg: Config, w: World, block: nat, who: AccountId, t: Terms, j: Journal, later: nat,
                         voter: AccountId)
    requires History(cfg, j) && NextId(w.journal) < U64_MAX && IsStored(j, NextId(w.journal))
    requires Dispatch(cfg, w, block, Signed(who), Propose(t), 0).Done?
    requires Dispatch(cfg, w, block, Signed(who), Propose(t), 0).world.journal <= j
    ensures var id := NextId(w.journal);
            var period := if t.votingPeriod.Some? then t.votingPeriod.value else cfg.defaultVotingPeriod;
            VoteVerdict(cfg, j, later, Signed(voter), id) ==
              if !(block <= later <= Min(block + period, cfg.maxBlock)) then Fail(VotingClosed)
              else if Ever(j, VotedBy(id, voter)) then Fail(AlreadyVoted)
              else if Count(j, VotesOn(id)) >= cfg.maxVotersPerProposal then Fail(VotersOverflow)
              else Pass
  {
    ProposedNote(cfg, w, block, who, t, j);
    VoteLaw(cfg, World(j, 0), later, Signed(voter), NextId(w.journal), true, 0);
  }

  /** And which votes the terms ask for before the call that was proposed is executed. */
  lemma TermsDecideExecution(cfg: Config, w: World, block: nat, who: AccountId, t: Terms, j: Journal, later: nat,
                             origin: AccountId)
    requires History(cfg, j) && NextId(w.journal) < U64_MAX && IsStored(j, NextId(w.journal))
    requires Dispatch(cfg, w, block, Signed(who), Propose(t), 0).Done?
    requires Dispatch(cfg, w, block, Signed(who), Propose(t), 0).world.journal <= j
    ensures var id := NextId(w.journal);
            var period := if t.votingPeriod.Some? then t.votingPeriod.value else cfg.defaultVotingPeriod;
            var quorum := if t.quorum.Some? then t.quorum.value else cfg.defaultQuorum;
            var threshold := if t.passThreshold.Some? then t.passThreshold.value else cfg.defaultPassThreshold;
            var yeas, total := Count(j, Ayes(id)), Count(j, VotesOn(id));
            ExecuteVerdict(cfg, j, later, Signed(origin), id) ==
              if Ever(j, Executes(id)) then Fail(ProposalAlreadyExecuted)
              else if later <= Min(block + period, cfg.maxBlock) then Fail(VotingClosed)
              else if total < quorum then Fail(QuorumNotReached)
              else if Percent(yeas, total) < threshold then Fail(ProposalNotPassed)
              else if cfg.decode(t.call) == None then Fail(InvalidCallEncoding)
              else Pass
  {
    ProposedNote(cfg, w, block, who, t, j);
    ExecuteLaw(cfg, j, later, Signed(origin), NextId(w.journal));
  }

  // ---------------------------------------------------------------------------------------------------
  // Cancel

  /** What `cancel` answers, and that it removes the proposal and no other. */
  lemma CancelLaw(cfg: Config, w: World, block: nat, origin: Origin, id: ProposalId, depth: nat, other: ProposalId)
    ensures var outcome, j := Dispatch(cfg, w, block, origin, Cancel(id), depth), w.journal;
            var j' := j + [Entry(block, Cancelled(id, origin))];
            && outcome == (if !cfg.routerAdmin(origin) then Failed(BadOrigin)
                           else if !IsStored(j, id) then Failed(ProposalNotFound)
                           else Done(World(j', w.outside)))
            && (IsStored(j', other) <==> other != id && IsStored(j, other))
  {
    var j' := w.journal + [Entry(block, Cancelled(id, origin))];
    assert Front(j') == w.journal;
    StoredIsRead(w.journal, id);
    StoredIsRead(w.journal, other);
    StoredIsRead(j', other);
  }

  // ---------------------------------------------------------------------------------------------------
  // Who did it

  /** Whoever the note names had the right to make it, at that moment. */
  ghost predicate Rightful(cfg: Config, j: Journal, e: Entry) {
    match e.note
    case Created(_, p) => exists t :: IsProposed(cfg, e.block, p.proposer, t, p)
    case Voted(id, who, _) =>
      && IsStored(j, id)
      && (id < U64_MAX ==>
            && !Ever(j, VotedBy(id, who))
            && exists k: nat :: Latest(j, Proposes(id), k)
                                && j[k].note.proposal.start <= e.block <= j[k].note.proposal.end)
    case Executed(id, _) =>
      id < U64_MAX ==>
        exists k: nat :: Latest(j, Proposes(id), k) && j[k].note.proposal.end < e.block
                         && Count(j, VotesOn(id)) >= j[k].note.proposal.quorum
                         && Percent(Count(j, Ayes(id)), Count(j, VotesOn(id))) >= j[k].note.proposal.passThreshold
    case Cancelled(id, canceller) => cfg.routerAdmin(canceller) && IsStored(j, id)
  }

  lemma BallotIsRightful(cfg: Config, j: Journal, e: Entry)
    requires History(cfg, j) && Admitted(cfg, j, e) && e.note.id < U64_MAX
    requires e.note.Voted? || e.note.Executed?
    ensures Rightful(cfg, j, e)
  {
    var id := e.note.id;
    StoredIsRead(j, id);
    TermsAreAsProposed(cfg, j, id);
    LatestExists(j, Proposes(id));
    TallyIsReplay(cfg, j, id);
    VotesAreRead(j, id, if e.note.Voted? then e.note.who else 0);
    var k: nat :| Latest(j, Proposes(id), k);
    assert SameTerms(j[k].note.proposal, Records(j)[id]);
  }

  lemma EveryNoteIsRightful(cfg: Config, j: Journal, n: nat)
    requires History(cfg, j) && n < |j|
    ensures Rightful(cfg, j[..n], j[n])
  {
    HistoryPrefix(cfg, j, n);
    var before, e := j[..n], j[n];
    match e.note
    case Created(id, p) =>
      var t, who :| ProposeVerdict(cfg, before, Signed(who), t).Pass? && p == NewProposal(cfg, id, e.block, who, t);
      NewProposalIsProposed(cfg, id, e.block, who, t);
    case Cancelled(id, _) => StoredIsRead(before, id);
    case _ =>
      StoredIsRead(before, e.note.id);
      if e.note.id < U64_MAX {
        BallotIsRightful(cfg, before, e);
      }
  }

  /** In every run, a proposal that was made and is gone from storage was cancelled by the admin origin. */
  lemma GoneByAdmin(cfg: Config, actions: seq<Action>, id: ProposalId) returns (n: nat)
    requires var j := Run(cfg, actions).world.journal; Ever(j, Proposes(id)) && id !in Live(j)
    ensures var j := Run(cfg, actions).world.journal;
            n < |j| && Cancels(id)(j[n]) && cfg.routerAdmin(j[n].note.canceller)
  {
    var j := Run(cfg, actions).world.journal;
    RunIsHistory(cfg, actions);
    StoredIsRead(j, id);
    assert Ever(j, Moves(id)) by {
      var k :| 0 <= k < |j| && Proposes(id)(j[k]);
      assert Moves(id)(j[k]);
    }
    LatestExists(j, Moves(id));
    n :| Latest(j, Moves(id), n);
    assert !StoredAt(j, id, n);
    EveryNoteIsRightful(cfg, j, n);
  }
}
