/**
Reward rules, attestations and claims, seen through the pallet's history only.

The journal lists the committed calls, stamped with block number and clock. What a claimant may still claim in
an epoch is the number of claims in the journal set against the rule's limit; there are no counters here.
`RewardsPallet` proves that the pallet, with its lazily reset 32-bit counters, decides the same.
*/
module RewardsHistory {
  import opened Common

  type RuleId = u32
  type AttestationId = u64
  type Epoch = u64

  datatype RewardRule = RewardRule(
    eventType: Bytes,
    amount: nat,
    maxPerEpoch: u32,
    club: Option<ClubId>,
    metadata: Option<Hash>)

  datatype Attestation = Attestation(
    subject: AccountId,
    ruleId: RuleId,
    attestor: AccountId,
    createdAt: Moment,
    expiresAt: Option<Moment>,
    used: bool,
    metadata: Option<Hash>)

  datatype Config = Config(
    ruleCreation: Origin -> bool,
    manualAward: Origin -> bool,
    epochLengthInBlocks: u64,
    maxAttestations: u32)

  datatype Error =
    | BadOrigin | RuleNotFound | AttestationNotFound | AttestationExpired | AttestationUsed
    | NotAuthorizedAttestor | ExceedsLimit | InvalidInput | AttestationsOverflow

  datatype Verdict = Ok | Err(error: Error)

  datatype Note =
    | RuleSeeded(ruleId: RuleId, rule: RewardRule)
    | RuleCreated(ruleId: RuleId, rule: RewardRule, creator: Origin)
    | AttestationCreated(attestationId: AttestationId, attestation: Attestation)
    | AttestationRevoked(attestationId: AttestationId, revoker: AccountId)
    | RewardClaimed(who: AccountId, ruleId: RuleId, attestationId: AttestationId, amount: nat)

  datatype Entry = Entry(block: nat, now: Moment, note: Note)

  type Journal = seq<Entry>

  const MAX_EVENT_TYPE_LEN := 32

  /** The epoch of a block. With a zero epoch length all blocks are in epoch 0. */
  function EpochAt(cfg: Config, block: nat): Epoch {
    var b := Min(block, U64_MAX);
    if cfg.epochLengthInBlocks == 0 then 0 else EpochOf(b, cfg.epochLengthInBlocks)
  }

  function EpochOf(b: u64, len: u64): (e: Epoch)
    requires len > 0
    ensures e * len <= b < (e + 1) * len
  {
    var e := b / len;
    assert e * len <= b < (e + 1) * len && e <= b by { QuotientBounds(b, len); }
    e
  }

  lemma QuotientBounds(b: nat, len: nat)
    requires len > 0
    ensures (b / len) * len <= b < (b / len + 1) * len && b / len <= b
  {
    var q := b / len;
    assert b == q * len + b % len;
    assert q <= q * len by { Scaled(q, len); }
  }

  lemma Scaled(q: nat, len: nat)
    requires len > 0
    ensures q <= q * len
  {
  }

  lemma {:induction false} EpochsAreMonotone(cfg: Config, b: nat, b': nat)
    requires b <= b'
    ensures EpochAt(cfg, b) <= EpochAt(cfg, b')
  {
    var len := cfg.epochLengthInBlocks;
    if len > 0 {
      var e: nat, e': nat := EpochAt(cfg, b), EpochAt(cfg, b');
      ScaledMonotone(e' + 1, e, len);
    }
  }

  lemma ScaledMonotone(a: nat, b: nat, len: nat)
    ensures a <= b ==> a * len <= b * len
  {
  }

  // ---------------------------------------------------------------------------------------------------
  // What the journal says

  function Rules(j: Journal): map<RuleId, RewardRule> {
    if j == [] then map[] else
      match Last(j).note
      case RuleSeeded(id, rule) => Rules(Front(j))[id := rule]
      case RuleCreated(id, rule, _) => Rules(Front(j))[id := rule]
      case _ => Rules(Front(j))
  }

  /** The id the next rule gets: above all ids seen, as far as 32 bits allow. */
  function NextRuleId(j: Journal): RuleId {
    if j == [] then 0 else
      var next := NextRuleId(Front(j));
      match Last(j).note
      case RuleSeeded(id, _) => if id >= next then SatAdd32(id, 1) else next
      case RuleCreated(id, _, _) => SatAdd32(id, 1)
      case _ => next
  }

  /** The attestations ever made. */
  function Attested(j: Journal): seq<Attestation> {
    if j == [] then [] else
      match Last(j).note
      case AttestationCreated(_, att) => Attested(Front(j)) + [att]
      case _ => Attested(Front(j))
  }

  /** How often an attestation was claimed. */
  function Uses(j: Journal, id: AttestationId): nat {
    if j == [] then 0 else
      Uses(Front(j), id) + (if Last(j).note.RewardClaimed? && Last(j).note.attestationId == id then 1 else 0)
  }

  predicate Revoked(j: Journal, id: AttestationId) {
    j != [] && (Revoked(Front(j), id) || (Last(j).note.AttestationRevoked? && Last(j).note.attestationId == id))
  }

  predicate IsClaim(cfg: Config, e: Entry, who: AccountId, rule: RuleId, epoch: Epoch) {
    e.note.RewardClaimed? && e.note.who == who && e.note.ruleId == rule && EpochAt(cfg, e.block) == epoch
  }

  /** The claims of an account under a rule in an epoch. */
  function Claims(cfg: Config, j: Journal, who: AccountId, rule: RuleId, epoch: Epoch): nat {
    if j == [] then 0
    else Claims(cfg, Front(j), who, rule, epoch) + (if IsClaim(cfg, Last(j), who, rule, epoch) then 1 else 0)
  }

  /** Is the attestation still there, and with what contents? */
  function Standing(j: Journal, id: AttestationId): Option<Attestation> {
    if id < |Attested(j)| && !Revoked(j, id)
    then Some(Attested(j)[id].(used := Uses(j, id) > 0))
    else None
  }

  // ---------------------------------------------------------------------------------------------------
  // Verdicts

  function CreateRuleVerdict(cfg: Config, origin: Origin, rule: RewardRule): Verdict {
    if !cfg.ruleCreation(origin) then Err(BadOrigin)
    else if |rule.eventType| > MAX_EVENT_TYPE_LEN then Err(InvalidInput)
    else Ok
  }

  function AttestVerdict(cfg: Config, j: Journal, origin: Origin, rule: RuleId): Verdict {
    if !origin.Signed? then Err(BadOrigin)
    else if rule !in Rules(j) then Err(RuleNotFound)
    else if Rules(j)[rule].club.None? && !cfg.manualAward(origin) then Err(NotAuthorizedAttestor)
    else if |Attested(j)| >= cfg.maxAttestations then Err(AttestationsOverflow)
    else Ok
  }

  function ClaimVerdict(cfg: Config, j: Journal, block: nat, now: Moment, origin: Origin, id: AttestationId): Verdict {
    if !origin.Signed? then Err(BadOrigin)
    else if Standing(j, id).None? then Err(AttestationNotFound)
    else
      var att := Standing(j, id).value;
      if att.subject != origin.who then Err(InvalidInput)
      else if att.used then Err(AttestationUsed)
      else if att.expiresAt.Some? && now > att.expiresAt.value then Err(AttestationExpired)
      else if att.ruleId !in Rules(j) then Err(RuleNotFound)
      else if Claims(cfg, j, origin.who, att.ruleId, EpochAt(cfg, block)) >= Rules(j)[att.ruleId].maxPerEpoch
      then Err(ExceedsLimit)
      else Ok
  }

  function RevokeVerdict(cfg: Config, j: Journal, origin: Origin, id: AttestationId): Verdict {
    if !origin.Signed? then Err(BadOrigin)
    else if Standing(j, id).None? then Err(AttestationNotFound)
    else
      var att := Standing(j, id).value;
      if att.ruleId !in Rules(j) then Err(RuleNotFound)
      else if Rules(j)[att.ruleId].club.Some? && origin.who == att.attestor then Ok
      else if Rules(j)[att.ruleId].club.Some? then Err(NotAuthorizedAttestor)
      else if !cfg.manualAward(origin) then Err(NotAuthorizedAttestor)
      else Ok
  }

  // ---------------------------------------------------------------------------------------------------
  // Histories: genesis rules first, then calls that the journal before them allows

  predicate Seeding(j: Journal) {
    j == [] || (Seeding(Front(j)) && Last(j).note.RuleSeeded?)
  }

  ghost predicate Admitted(cfg: Config, j: Journal, e: Entry) {
    && (j != [] ==> Last(j).block <= e.block && Last(j).now <= e.now)
    && match e.note
       case RuleSeeded(_, _) => Seeding(j) && e.block == 0 && e.now == 0
       case RuleCreated(id, rule, creator) => id == NextRuleId(j) && CreateRuleVerdict(cfg, creator, rule) == Ok
       case AttestationCreated(id, att) =>
         && id == |Attested(j)|
         && AttestVerdict(cfg, j, Signed(att.attestor), att.ruleId) == Ok
         && att.createdAt == e.now && !att.used
       case AttestationRevoked(id, who) => RevokeVerdict(cfg, j, Signed(who), id) == Ok
       case RewardClaimed(who, rule, id, amount) =>
         && ClaimVerdict(cfg, j, e.block, e.now, Signed(who), id) == Ok
         && rule == Standing(j, id).value.ruleId
         && amount == Rules(j)[rule].amount
  }

  ghost predicate History(cfg: Config, j: Journal) {
    j == [] || (History(cfg, Front(j)) && Admitted(cfg, Front(j), Last(j)))
  }
}
