/**
The proposal router seen through its history only.

The journal lists what the committed calls did, oldest first; storage plays no part here. Whether a call
succeeds, and with which error it fails, is decided from the journal alone, and `RouterPallet` proves that
the storage-based pallet decides the same. A journal note holds the pallet's event and, where the event
leaves it out, the value written: `Created` the whole new record, `Executed` the record `execute` writes back.
`Cancelled` also holds the origin that called.
*/
module RouterBallot {
  import opened Common

  type ProposalId = u64
  type Votes = u32

  datatype Scope = Club(club: ClubId) | Global

  datatype Proposal = Proposal(
    id: ProposalId,
    proposer: AccountId,
    scope: Scope,
    call: Bytes,
    metadata: Option<Bytes>,
    start: nat,
    end: nat,
    yea: Votes,
    nay: Votes,
    executed: bool,
    voters: seq<AccountId>,
    quorum: Votes,
    passThreshold: u32,
    club: Option<ClubId>)

  /** What a runtime call does as far as the router is concerned: one of the router's own calls, a call of
      another pallet, a composite that dispatches its parts in order and fails with the first failure, or
      an attempt, which succeeds whether or not the call in it does. */
  datatype RuntimeCall =
    | Propose(terms: Terms)
    | Vote(id: ProposalId, aye: bool)
    | Execute(id: ProposalId)
    | Cancel(id: ProposalId)
    | Foreign(tag: nat)
    | Batch(calls: seq<RuntimeCall>)
    | Attempt(call: RuntimeCall)

  /** The arguments of `propose`. */
  datatype Terms = Terms(
    scope: Scope,
    call: Bytes,
    metadata: Option<Bytes>,
    votingPeriod: Option<nat>,
    quorum: Option<Votes>,
    passThreshold: Option<u32>)

  datatype Error =
    | BadOrigin | ProposalNotFound | VotingClosed | AlreadyVoted | ProposalAlreadyExecuted | ExecutionFailed
    | MetadataTooLarge | VotersOverflow | ClubIndexOverflow | InvalidCallEncoding | QuorumNotReached
    | ProposalNotPassed | ForeignError

  datatype Verdict = Pass | Fail(error: Error)

  /** `maxBlock` is the largest block number; `foreign` is what a call of another pallet makes of the state
      outside the router (or that it fails); `decode` is the decoding of stored call bytes. */
  datatype Config = Config(
    maxMetadataLen: u32,
    maxVotersPerProposal: u32,
    defaultVotingPeriod: nat,
    defaultQuorum: Votes,
    defaultPassThreshold: u32,
    routerAdmin: Origin -> bool,
    palletAccount: AccountId,
    maxBlock: nat,
    decode: Bytes -> Option<RuntimeCall>,
    foreign: (nat, Origin, nat) -> Option<nat>)

  const MAX_CLUB_PROPOSALS := 1024

  datatype Note =
    | Created(id: ProposalId, proposal: Proposal)
    | Voted(id: ProposalId, who: AccountId, aye: bool)
    | Executed(id: ProposalId, proposal: Proposal)
    | Cancelled(id: ProposalId, canceller: Origin)

  datatype Entry = Entry(block: nat, note: Note)

  type Journal = seq<Entry>

  // ---------------------------------------------------------------------------------------------------
  // What the journal says

  function Tallied(p: Proposal, who: AccountId, aye: bool): Proposal {
    if aye then p.(yea := SatAdd32(p.yea, 1), voters := p.voters + [who])
    else p.(nay := SatAdd32(p.nay, 1), voters := p.voters + [who])
  }

  /** The latest record of every proposal ever created, cancelled ones included. */
  function Records(j: Journal): map<ProposalId, Proposal> {
    if j == [] then map[] else
      var m := Records(Front(j));
      match Last(j).note
      case Created(id, p) => m[id := p]
      case Voted(id, who, aye) => if id in m then m[id := Tallied(m[id], who, aye)] else m
      case Executed(id, p) => m[id := p]
      case Cancelled(_, _) => m
  }

  /** The proposals in storage. A proposal cancelled by its own execution is written back by it. */
  function Live(j: Journal): set<ProposalId> {
    if j == [] then {} else
      match Last(j).note
      case Created(id, _) => Live(Front(j)) + {id}
      case Voted(_, _, _) => Live(Front(j))
      case Executed(id, _) => Live(Front(j)) + {id}
      case Cancelled(id, _) => Live(Front(j)) - {id}
  }

  function NextId(j: Journal): ProposalId {
    if j == [] then 0
    else if Last(j).note.Created? then SatAdd64(NextId(Front(j)), 1)
    else NextId(Front(j))
  }

  /** The ids proposed under a club, in order of creation. */
  function ClubIndex(j: Journal, club: ClubId): seq<ProposalId> {
    if j == [] then []
    else if Last(j).note.Created? && Last(j).note.proposal.scope == Club(club)
    then ClubIndex(Front(j), club) + [Last(j).note.id]
    else ClubIndex(Front(j), club)
  }

  // ---------------------------------------------------------------------------------------------------
  // The pass test

  function TotalVotes(p: Proposal): Votes {
    SatAdd32(p.yea, p.nay)
  }

  /** Percent times 100 of yeas, as `execute` computes it: the product in 32 bits, saturating. */
  function PassPercentX100(yea: Votes, total: Votes): nat {
    if total == 0 then 0 else SatMul32(yea, 10_000) / total
  }

  // ---------------------------------------------------------------------------------------------------
  // Verdicts

  function ProposeVerdict(cfg: Config, j: Journal, origin: Origin, terms: Terms): Verdict {
    if !origin.Signed? then Fail(BadOrigin)
    else if terms.metadata.Some? && |terms.metadata.value| > cfg.maxMetadataLen then Fail(MetadataTooLarge)
    else if terms.scope.Club? && |ClubIndex(j, terms.scope.club)| >= MAX_CLUB_PROPOSALS then Fail(ClubIndexOverflow)
    else Pass
  }

  function VoteVerdict(cfg: Config, j: Journal, block: nat, origin: Origin, id: ProposalId): Verdict {
    if !origin.Signed? then Fail(BadOrigin)
    else if id !in Live(j) || id !in Records(j) then Fail(ProposalNotFound)
    else
      var p := Records(j)[id];
      if block < p.start || block > p.end then Fail(VotingClosed)
      else if origin.who in p.voters then Fail(AlreadyVoted)
      else if |p.voters| >= cfg.maxVotersPerProposal then Fail(VotersOverflow)
      else Pass
  }

  /** The checks `execute` makes on a stored record before it dispatches. */
  function ReadyVerdict(cfg: Config, p: Proposal, block: nat): Verdict {
    if p.executed then Fail(ProposalAlreadyExecuted)
    else if block <= p.end then Fail(VotingClosed)
    else if TotalVotes(p) < p.quorum then Fail(QuorumNotReached)
    else if PassPercentX100(p.yea, TotalVotes(p)) < p.passThreshold then Fail(ProposalNotPassed)
    else if cfg.decode(p.call).None? then Fail(InvalidCallEncoding)
    else Pass
  }

  function ExecuteVerdict(cfg: Config, j: Journal, block: nat, origin: Origin, id: ProposalId): (v: Verdict)
    ensures v.Pass? ==> id in Live(j) && id in Records(j) && ReadyVerdict(cfg, Records(j)[id], block).Pass?
  {
    if !origin.Signed? then Fail(BadOrigin)
    else if id !in Live(j) || id !in Records(j) then Fail(ProposalNotFound)
    else ReadyVerdict(cfg, Records(j)[id], block)
  }

  function CancelVerdict(cfg: Config, j: Journal, origin: Origin, id: ProposalId): Verdict {
    if !cfg.routerAdmin(origin) then Fail(BadOrigin)
    else if id !in Live(j) then Fail(ProposalNotFound)
    else Pass
  }

  function NewProposal(cfg: Config, id: ProposalId, block: nat, who: AccountId, t: Terms): Proposal {
    var period := if t.votingPeriod.Some? then t.votingPeriod.value else cfg.defaultVotingPeriod;
    Proposal(id, who, t.scope, t.call, t.metadata, block, Min(block + period, cfg.maxBlock), 0, 0, false, [],
             if t.quorum.Some? then t.quorum.value else cfg.defaultQuorum,
             if t.passThreshold.Some? then t.passThreshold.value else cfg.defaultPassThreshold,
             if t.scope.Club? then Some(t.scope.club) else None)
  }
}
