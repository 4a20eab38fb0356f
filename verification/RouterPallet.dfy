/**
The proposal router as the pallet runs it: storage maps that the calls update in place.

The call bodies (`Propose`, `Vote`, `Execute`, `Cancel`) may leave storage half changed when they fail.
`Dispatch` runs them inside a storage layer that is rolled back on failure, and only it promises the
invariant. Storage is proved to be, at all times, what the journal says, and each outcome to be the one
that the journal alone determines.
*/
module RouterPallet {
  import opened Common
  import opened RouterBallot
  import D = RouterDispatch
  import R = RouterReentry
  import T = RouterTheorems

  /** `Cut` is a dispatch abandoned because its executions nest more than `depth` deep. */
  datatype CallResult = Ok | Err(error: Error) | Cut

  ghost predicate Settles(outcome: D.Outcome, r: CallResult, before: D.World, after: D.World) {
    match outcome
    case Done(w) => r == Ok && after == w
    case Failed(e) => r == Err(e) && after == before
    case Unfinished => r == Cut && after == before
  }

  /** As `Settles`, before a failed call has been rolled back. */
  ghost predicate Leads(outcome: D.Outcome, r: CallResult, after: D.World) {
    match outcome
    case Done(w) => r == Ok && after == w
    case Failed(e) => r == Err(e)
    case Unfinished => r == Cut
  }

  ghost predicate RecordMatches(proposals: map<ProposalId, Proposal>, j: Journal, id: ProposalId) {
    && (id in proposals <==> id in Live(j))
    && (id in proposals ==> id in Records(j) && proposals[id] == Records(j)[id])
  }

  ghost predicate RecordsMatch(proposals: map<ProposalId, Proposal>, j: Journal) {
    forall id {:trigger RecordMatches(proposals, j, id)} :: RecordMatches(proposals, j, id)
  }

  ghost predicate IndexMatches(clubProposals: map<ClubId, seq<ProposalId>>, j: Journal, c: ClubId) {
    && (c in clubProposals <==> ClubIndex(j, c) != [])
    && (c in clubProposals ==> clubProposals[c] == ClubIndex(j, c))
  }

  ghost predicate IndexesMatch(clubProposals: map<ClubId, seq<ProposalId>>, j: Journal) {
    forall c {:trigger IndexMatches(clubProposals, j, c)} :: IndexMatches(clubProposals, j, c)
  }

  lemma RecordsMatchAfterWrite(proposals: map<ProposalId, Proposal>, j: Journal, e: Entry, p: Proposal)
    requires RecordsMatch(proposals, j)
    requires e.note.Created? || e.note.Executed? ==> p == e.note.proposal
    requires e.note.Voted? ==> e.note.id in proposals && p == Tallied(proposals[e.note.id], e.note.who, e.note.aye)
    requires !e.note.Cancelled?
    ensures RecordsMatch(proposals[e.note.id := p], j + [e])
  {
    assert Front(j + [e]) == j;
    var proposals' := proposals[e.note.id := p];
    forall id: ProposalId ensures RecordMatches(proposals', j + [e], id) {
      assert RecordMatches(proposals, j, id);
    }
  }

  lemma RecordsMatchAfterCancel(proposals: map<ProposalId, Proposal>, j: Journal, e: Entry)
    requires RecordsMatch(proposals, j) && e.note.Cancelled?
    ensures RecordsMatch(proposals - {e.note.id}, j + [e])
  {
    assert Front(j + [e]) == j;
    var proposals' := proposals - {e.note.id};
    forall id: ProposalId ensures RecordMatches(proposals', j + [e], id) {
      assert RecordMatches(proposals, j, id);
    }
  }

  lemma IndexesMatchAfterCreate(clubProposals: map<ClubId, seq<ProposalId>>, j: Journal, e: Entry)
    requires IndexesMatch(clubProposals, j) && e.note.Created?
    ensures match e.note.proposal.scope
            case Global => IndexesMatch(clubProposals, j + [e])
            case Club(c) => IndexesMatch(clubProposals[c := ClubIndex(j, c) + [e.note.id]], j + [e])
  {
    assert Front(j + [e]) == j;
    var scope := e.note.proposal.scope;
    var clubProposals' := if scope.Global? then clubProposals
                          else clubProposals[scope.club := ClubIndex(j, scope.club) + [e.note.id]];
    forall c: ClubId ensures IndexMatches(clubProposals', j + [e], c) {
      assert IndexMatches(clubProposals, j, c);
    }
  }

  lemma IndexesMatchAfter(clubProposals: map<ClubId, seq<ProposalId>>, j: Journal, e: Entry)
    requires IndexesMatch(clubProposals, j) && !e.note.Created?
    ensures IndexesMatch(clubProposals, j + [e]) && NextId(j + [e]) == NextId(j)
  {
    assert Front(j + [e]) == j;
    forall c: ClubId ensures IndexMatches(clubProposals, j + [e], c) {
      assert IndexMatches(clubProposals, j, c);
    }
  }

  ghost predicate ExecutedAtMostOnce(j: Journal) {
    forall i: ProposalId :: i < U64_MAX ==> T.Executions(j, i) <= 1
  }

  lemma PlainDispatchKeepsOnce(cfg: Config, w: D.World, block: nat, origin: Origin, c: RuntimeCall, depth: nat)
    requires D.NeverSwallows(cfg) && D.HistoryAt(cfg, w.journal, block) && ExecutedAtMostOnce(w.journal)
    requires D.Dispatch(cfg, w, block, origin, c, depth).Done?
    ensures ExecutedAtMostOnce(D.Dispatch(cfg, w, block, origin, c, depth).world.journal)
  {
    var stored := R.ReadyCalls(cfg, w.journal, block);
    forall i: ProposalId | i < U64_MAX
      ensures T.Executions(D.Dispatch(cfg, w, block, origin, c, depth).world.journal, i) <= 1
    {
      R.NeverRepeatsItself(stored, i);
      R.ExecutedAtMostOnceMore(cfg, w, block, origin, c, depth, stored, i);
    }
  }

  class Router {
    const cfg: Config
    var proposals: map<ProposalId, Proposal>
    var clubProposals: map<ClubId, seq<ProposalId>>
    var nextProposalId: ProposalId
    var block: nat
    /** The state of the rest of the chain. */
    var outside: nat
    ghost var journal: Journal

    ghost function World(): D.World
      reads this
    {
      D.World(journal, outside)
    }

    twostate predicate SameStorage()
      reads this
    {
      && proposals == old(proposals) && clubProposals == old(clubProposals) && nextProposalId == old(nextProposalId)
      && outside == old(outside) && journal == old(journal)
    }

    /** Storage is what the journal says. */
    ghost predicate MatchesJournal()
      reads this
    {
      && RecordsMatch(proposals, journal)
      && IndexesMatch(clubProposals, journal)
      && nextProposalId == NextId(journal)
    }

    ghost predicate Valid()
      reads this
    {
      && MatchesJournal()
      && D.HistoryAt(cfg, journal, block)
      && (D.NeverSwallows(cfg) ==> ExecutedAtMostOnce(journal))
    }

    constructor (cfg: Config)
      ensures Valid() && this.cfg == cfg
      ensures journal == [] && block == 0 && proposals == map[]
    {
      this.cfg := cfg;
      proposals, clubProposals, nextProposalId := map[], map[], 0;
      block, outside := 0, 0;
      journal := [];
    }

    /** Blocks pass; the block number never decreases. */
    method Advance(blocks: nat)
      requires Valid()
      modifies this`block
      ensures Valid() && block == Min(old(block) + blocks, cfg.maxBlock)
    {
      block := Min(block + blocks, cfg.maxBlock);
    }

    /** Anything may happen elsewhere on the chain. */
    method Elsewhere(outside: nat)
      requires Valid()
      modifies this`outside
      ensures Valid() && this.outside == outside
    {
      this.outside := outside;
    }

    /** Storage agrees with the votes and executions on record, for every proposal below the last id. */
    lemma StorageIsReplay(id: ProposalId)
      requires Valid() && id < U64_MAX
      ensures D.NeverSwallows(cfg) ==> T.Executions(journal, id) <= 1
      ensures id in proposals ==>
                var p := proposals[id];
                && p.id == id
                && (p.executed <==> T.Executions(journal, id) > 0)
                && p.voters == T.VotersOf(journal, id) && Distinct(p.voters)
                && p.yea == T.VotesCast(journal, id, true) && p.nay == T.VotesCast(journal, id, false)
                && p.yea + p.nay == |p.voters| <= cfg.maxVotersPerProposal
                && (p.club.Some? ==> p.club.value in clubProposals && id in clubProposals[p.club.value])
    {
      assert RecordMatches(proposals, journal, id);
      T.RecordsAreBelowNextId(cfg, journal);
      T.ExecutedExactlyWhen(cfg, journal, id);
      T.TallyIsReplay(cfg, journal, id);
      if id in proposals && proposals[id].club.Some? {
        assert IndexMatches(clubProposals, journal, proposals[id].club.value);
        T.ClubIndexIsExact(cfg, journal, proposals[id].club.value, id);
      }
    }

    method Dispatch(origin: Origin, c: RuntimeCall, depth: nat) returns (r: CallResult)
      requires Valid()
      modifies this
      ensures Valid() && block == old(block)
      ensures Settles(D.Dispatch(cfg, old(World()), block, origin, c, depth), r, old(World()), World())
      ensures r != Ok ==> SameStorage()
      decreases depth, c, 2
    {
      var savedProposals, savedClubProposals := proposals, clubProposals;
      var savedNextProposalId, savedOutside := nextProposalId, outside;
      r := Route(origin, c, depth);
      if r != Ok {
        proposals, clubProposals := savedProposals, savedClubProposals;
        nextProposalId, outside := savedNextProposalId, savedOutside;
        journal := old(journal);
      } else {
        R.DispatchKeeps(cfg, old(World()), block, origin, c, depth);
        if D.NeverSwallows(cfg) {
          PlainDispatchKeepsOnce(cfg, old(World()), block, origin, c, depth);
        }
      }
    }

    method Route(origin: Origin, c: RuntimeCall, depth: nat) returns (r: CallResult)
      requires Valid()
      modifies this
      ensures block == old(block)
      ensures r == Ok ==> MatchesJournal()
      ensures Leads(D.Dispatch(cfg, old(World()), block, origin, c, depth), r, World())
      decreases depth, c, 1
    {
      match c {
        case Propose(t) => r := Propose(origin, t);
        case Vote(id, aye) => r := Vote(origin, id, aye);
        case Execute(id) => r := Execute(origin, id, depth);
        case Cancel(id) => r := Cancel(origin, id);
        case Foreign(tag) =>
          var effect := cfg.foreign(tag, origin, outside);
          if effect.Some? {
            outside := effect.value;
            r := Ok;
          } else {
            r := Err(ForeignError);
          }
        case Batch(calls) => r := DispatchAll(origin, calls, depth);
        case Attempt(inner) =>
          r := Dispatch(origin, inner, depth);
          if r.Err? {
            r := Ok;
          }
      }
    }

    method DispatchAll(origin: Origin, calls: seq<RuntimeCall>, depth: nat) returns (r: CallResult)
      requires Valid()
      modifies this
      ensures block == old(block)
      ensures r == Ok ==> MatchesJournal()
      ensures Leads(D.DispatchAll(cfg, old(World()), block, origin, calls, depth), r, World())
      decreases depth, calls, 0
    {
      var i := 0;
      r := Ok;
      while i < |calls|
        invariant i <= |calls|
        invariant Valid() && block == old(block) && r == Ok
        invariant D.DispatchAll(cfg, old(World()), block, origin, calls, depth)
               == D.DispatchAll(cfg, World(), block, origin, calls[i..], depth)
      {
        assert calls[i..][0] == calls[i] && calls[i..][1..] == calls[i + 1..];
        r := Dispatch(origin, calls[i], depth);
        if r != Ok {
          return;
        }
        i := i + 1;
      }
    }

    method PushClubProposal(cid: ClubId, id: ProposalId) returns (r: CallResult)
      modifies this`clubProposals
      ensures var index := if cid in old(clubProposals) then old(clubProposals)[cid] else [];
              if |index| >= MAX_CLUB_PROPOSALS then r == Err(ClubIndexOverflow)
              else r == Ok && clubProposals == old(clubProposals)[cid := index + [id]]
    {
      assert [] + [id] == [id];
      if cid in clubProposals {
        if |clubProposals[cid]| >= MAX_CLUB_PROPOSALS {
          return Err(ClubIndexOverflow);
        }
        clubProposals := clubProposals[cid := clubProposals[cid] + [id]];
      } else {
        clubProposals := clubProposals[cid := [id]];
      }
      return Ok;
    }

    /** Inserts the proposal, then indexes it under its club, which may fail. */
    method InsertProposal(proposal: Proposal) returns (r: CallResult)
      requires MatchesJournal() && proposal.id == nextProposalId
      modifies this
      ensures block == old(block)
      ensures if proposal.scope.Club? && |ClubIndex(old(journal), proposal.scope.club)| >= MAX_CLUB_PROPOSALS
              then r == Err(ClubIndexOverflow)
              else && r == Ok && MatchesJournal()
                   && World() == D.Append(old(World()), block, Created(proposal.id, proposal))
    {
      var id := proposal.id;
      ghost var e := Entry(block, Created(id, proposal));
      RecordsMatchAfterWrite(proposals, journal, e, proposal);
      IndexesMatchAfterCreate(clubProposals, journal, e);
      assert proposal.scope.Club? ==> IndexMatches(clubProposals, journal, proposal.scope.club);
      proposals := proposals[id := proposal];
      if proposal.scope.Club? {
        r := PushClubProposal(proposal.scope.club, id);
        if r != Ok {
          return;
        }
      }
      nextProposalId := SatAdd64(id, 1);
      journal := journal + [e];
      return Ok;
    }

    /** The new record, with the given or the default terms. */
    method BuildProposal(who: AccountId, t: Terms) returns (proposal: Proposal)
      requires block <= cfg.maxBlock
      ensures proposal == NewProposal(cfg, nextProposalId, block, who, t)
      ensures proposal.start == block <= proposal.end <= cfg.maxBlock
      ensures proposal.voters == [] && TotalVotes(proposal) == 0 && !proposal.executed
      ensures proposal.club.Some? <==> proposal.scope.Club?
    {
      var start := block;
      var period := if t.votingPeriod.Some? then t.votingPeriod.value else cfg.defaultVotingPeriod;
      var end := Min(start + period, cfg.maxBlock);
      var q := if t.quorum.Some? then t.quorum.value else cfg.defaultQuorum;
      var pt := if t.passThreshold.Some? then t.passThreshold.value else cfg.defaultPassThreshold;
      var club := match t.scope case Club(cid) => Some(cid) case Global => None;
      proposal := Proposal(nextProposalId, who, t.scope, t.call, t.metadata, start, end, 0, 0, false, [], q, pt, club);
    }

    method Propose(origin: Origin, t: Terms) returns (r: CallResult)
      requires Valid()
      modifies this
      ensures block == old(block)
      ensures r == Ok ==> MatchesJournal()
      ensures Leads(D.DispatchPropose(cfg, old(World()), block, origin, t), r, World())
    {
      if !origin.Signed? {
        return Err(BadOrigin);
      }
      if t.metadata.Some? && |t.metadata.value| > cfg.maxMetadataLen {
        return Err(MetadataTooLarge);
      }
      var proposal := BuildProposal(origin.who, t);
      r := InsertProposal(proposal);
    }

    /** Edits a copy of the proposal and writes it back only if the voter list has room. */
    method Vote(origin: Origin, id: ProposalId, aye: bool) returns (r: CallResult)
      requires Valid()
      modifies this
      ensures block == old(block)
      ensures r == Ok ==> MatchesJournal()
      ensures Leads(D.DispatchVote(cfg, old(World()), block, origin, id, aye), r, World())
      ensures r != Ok ==> SameStorage()
    {
      if !origin.Signed? {
        return Err(BadOrigin);
      }
      assert RecordMatches(proposals, journal, id);
      if id !in proposals {
        return Err(ProposalNotFound);
      }
      var p := proposals[id];
      if !(block >= p.start && block <= p.end) {
        return Err(VotingClosed);
      }
      if origin.who in p.voters {
        return Err(AlreadyVoted);
      }
      if aye {
        p := p.(yea := SatAdd32(p.yea, 1));
      } else {
        p := p.(nay := SatAdd32(p.nay, 1));
      }
      if |p.voters| >= cfg.maxVotersPerProposal {
        return Err(VotersOverflow);
      }
      p := p.(voters := p.voters + [origin.who]);
      ghost var e := Entry(block, Voted(id, origin.who, aye));
      RecordsMatchAfterWrite(proposals, journal, e, p);
      IndexesMatchAfter(clubProposals, journal, e);
      journal := journal + [e];
      proposals := proposals[id := p];
      return Ok;
    }

    /** Holds a copy of the proposal across the nested dispatch and writes it back afterwards. */
    method Execute(origin: Origin, id: ProposalId, depth: nat) returns (r: CallResult)
      requires Valid()
      modifies this
      ensures block == old(block)
      ensures r == Ok ==> MatchesJournal()
      ensures Leads(D.Dispatch(cfg, old(World()), block, origin, RuntimeCall.Execute(id), depth), r, World())
      ensures r != Ok ==> SameStorage()
      decreases depth, RuntimeCall.Execute(id), 0
    {
      if !origin.Signed? {
        return Err(BadOrigin);
      }
      assert RecordMatches(proposals, journal, id);
      if id !in proposals {
        return Err(ProposalNotFound);
      }
      var p := proposals[id];
      if p.executed {
        return Err(ProposalAlreadyExecuted);
      }
      if !(block > p.end) {
        return Err(VotingClosed);
      }
      var totalVotes := SatAdd32(p.yea, p.nay);
      if totalVotes < p.quorum {
        return Err(QuorumNotReached);
      }
      var passPercentX100 := 0;
      if totalVotes != 0 {
        var numerator := SatMul32(p.yea, 10_000);
        passPercentX100 := numerator / totalVotes;
      }
      if passPercentX100 < p.passThreshold {
        return Err(ProposalNotPassed);
      }
      var decoded := cfg.decode(p.call);
      if decoded.None? {
        return Err(InvalidCallEncoding);
      }
      if depth == 0 {
        return Cut;
      }
      var result := Dispatch(Signed(cfg.palletAccount), decoded.value, depth - 1);
      p := p.(executed := true);
      match result {
        case Ok =>
          ghost var e := Entry(block, Executed(id, p));
          RecordsMatchAfterWrite(proposals, journal, e, p);
          IndexesMatchAfter(clubProposals, journal, e);
          journal := journal + [e];
          proposals := proposals[id := p];
          return Ok;
        case Err(_) => return Err(ExecutionFailed);
        case Cut => return Cut;
      }
    }

    method Cancel(origin: Origin, id: ProposalId) returns (r: CallResult)
      requires Valid()
      modifies this
      ensures block == old(block)
      ensures r == Ok ==> MatchesJournal()
      ensures var cancelled := D.Append(old(World()), block, Cancelled(id, origin));
              Leads(D.Settle(CancelVerdict(cfg, old(journal), origin, id), cancelled), r, World())
      ensures r != Ok ==> SameStorage()
    {
      if !cfg.routerAdmin(origin) {
        return Err(BadOrigin);
      }
      assert RecordMatches(proposals, journal, id);
      if id !in proposals {
        return Err(ProposalNotFound);
      }
      ghost var e := Entry(block, Cancelled(id, origin));
      RecordsMatchAfterCancel(proposals, journal, e);
      IndexesMatchAfter(clubProposals, journal, e);
      proposals := proposals - {id};
      journal := journal + [e];
      return Ok;
    }
  }
}
