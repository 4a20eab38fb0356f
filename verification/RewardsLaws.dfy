/**
The laws of the rewards pallet: who may create, attest, claim and revoke, and how often, read from the notes by
position. The epoch of a claim appears as the interval of blocks it covers.
*/
module RewardsLaws {
  import opened Common
  import opened Readings
  import opened RewardsHistory
  import opened RewardsTheorems

  // ---------------------------------------------------------------------------------------------------
  // Epochs

  /** The first block of the epoch that `block` is in: its number rounded down to a multiple of the epoch length,
      as far as 64 bits count blocks. */
  function EpochStart(cfg: Config, block: nat): nat {
    var b, len := if block <= U64_MAX then block else U64_MAX, cfg.epochLengthInBlocks;
    if len == 0 then 0 else b - b % len
  }

  /** An epoch of length `len` covers the blocks from `epoch * len` up to the next multiple. */
  lemma EpochBrackets(cfg: Config, block: nat)
    requires block <= U64_MAX
    ensures var len, epoch := cfg.epochLengthInBlocks, EpochAt(cfg, block);
            if len == 0 then epoch == 0 else epoch * len <= block < (epoch + 1) * len
  {
  }

  lemma RoundedDown(b: nat, len: nat, epoch: nat)
    requires len > 0 && epoch * len <= b < (epoch + 1) * len
    ensures b - b % len == epoch * len
  {
    var q, r := b / len, b % len;
    assert b == q * len + r && 0 <= r < len;
    if q < epoch {
      ScaledMonotone(q + 1, epoch, len);
    } else if epoch < q {
      ScaledMonotone(epoch + 1, q, len);
    }
  }

  /** Two blocks are in the same epoch exactly if the earlier is not before the first block of the later's epoch. */
  lemma SameEpochExactlyWhen(cfg: Config, b: nat, block: nat)
    requires b <= block
    ensures EpochAt(cfg, b) == EpochAt(cfg, block) <==> EpochStart(cfg, block) <= b
  {
    var len := cfg.epochLengthInBlocks;
    if len > 0 {
      var b0, block0 := Min(b, U64_MAX), Min(block, U64_MAX);
      var e: nat, e': nat := EpochAt(cfg, b), EpochAt(cfg, block);
      RoundedDown(block0, len, e');
      EpochsAreMonotone(cfg, b, block);
      ScaledMonotone(e + 1, e', len);
    }
  }

  // ---------------------------------------------------------------------------------------------------
  // Rules

  function WritesRule(id: RuleId): Entry -> bool {
    (e: Entry) => (e.note.RuleSeeded? || e.note.RuleCreated?) && e.note.ruleId == id
  }

  /** The replayed rules are those that were seeded or created, as written last. */
  lemma {:induction false} RulesAreWritten(j: Journal, id: RuleId)
    ensures id in Rules(j) <==> Ever(j, WritesRule(id))
    ensures forall r: nat :: Latest(j, WritesRule(id), r) ==> id in Rules(j) && Rules(j)[id] == j[r].note.rule
  {
    if j == [] {
    } else {
      RulesAreWritten(Front(j), id);
      EverStep(j, WritesRule(id));
      forall r: nat | Latest(j, WritesRule(id), r) ensures id in Rules(j) && Rules(j)[id] == j[r].note.rule {
        LatestStep(j, WritesRule(id), r);
      }
    }
  }

  /** The next rule id is one above the largest id ever written, saturating. */
  lemma {:induction false} NextRuleIdIsAbove(cfg: Config, j: Journal)
    requires History(cfg, j)
    ensures forall id: RuleId :: Ever(j, WritesRule(id)) ==> id < NextRuleId(j) || id == U32_MAX
    ensures NextRuleId(j) == 0 || exists id: RuleId :: Ever(j, WritesRule(id)) && NextRuleId(j) == SatAdd32(id, 1)
  {
    if j == [] {
    } else {
      NextRuleIdIsAbove(cfg, Front(j));
      forall id: RuleId ensures Ever(j, WritesRule(id)) <==> Ever(Front(j), WritesRule(id)) || WritesRule(id)(Last(j)) {
        EverStep(j, WritesRule(id));
      }
      if Last(j).note.RuleSeeded? || Last(j).note.RuleCreated? {
        assert Ever(j, WritesRule(Last(j).note.ruleId));
      }
    }
  }

  lemma CreateRuleLaw(cfg: Config, origin: Origin, rule: RewardRule)
    ensures CreateRuleVerdict(cfg, origin, rule) == Ok <==> cfg.ruleCreation(origin) && |rule.eventType| <= 32
    ensures CreateRuleVerdict(cfg, origin, rule) == Err(BadOrigin) <==> !cfg.ruleCreation(origin)
    ensures CreateRuleVerdict(cfg, origin, rule).Err? ==>
              CreateRuleVerdict(cfg, origin, rule).error in {BadOrigin, InvalidInput}
  {
  }

  // ---------------------------------------------------------------------------------------------------
  // Attestations

  function Attests(): Entry -> bool {
    (e: Entry) => e.note.AttestationCreated?
  }

  function Makes(id: AttestationId): Entry -> bool {
    (e: Entry) => e.note.AttestationCreated? && e.note.attestationId == id
  }

  function Revokes(id: AttestationId): Entry -> bool {
    (e: Entry) => e.note.AttestationRevoked? && e.note.attestationId == id
  }

  function Spends(id: AttestationId): Entry -> bool {
    (e: Entry) => e.note.RewardClaimed? && e.note.attestationId == id
  }

  /** Entry `k` made the attestation, and nothing revoked it. */
  ghost predicate MadeAt(j: Journal, id: AttestationId, k: nat) {
    Latest(j, Makes(id), k) && !Ever(j, Revokes(id))
  }

  ghost predicate IsMade(j: Journal, id: AttestationId) {
    exists k: nat :: MadeAt(j, id, k)
  }

  /** The replayed attestations are those made, in order of their ids; they are used or revoked if a note says so. */
  lemma {:induction false} AttestationsAreMade(cfg: Config, j: Journal, id: AttestationId)
    requires History(cfg, j)
    ensures |Attested(j)| == Count(j, Attests()) <= cfg.maxAttestations
    ensures id < |Attested(j)| <==> Ever(j, Makes(id))
    ensures forall k: nat :: Latest(j, Makes(id), k) ==>
              id < |Attested(j)| && Attested(j)[id] == j[k].note.attestation && !j[k].note.attestation.used
    ensures Revoked(j, id) <==> Ever(j, Revokes(id))
    ensures Uses(j, id) > 0 <==> Ever(j, Spends(id))
  {
    if j == [] {
    } else {
      AttestationsAreMade(cfg, Front(j), id);
      EverStep(j, Makes(id));
      EverStep(j, Revokes(id));
      EverStep(j, Spends(id));
      forall k: nat | Latest(j, Makes(id), k)
        ensures id < |Attested(j)| && Attested(j)[id] == j[k].note.attestation && !j[k].note.attestation.used
      {
        LatestStep(j, Makes(id), k);
      }
    }
  }

  lemma StandingIsRead(cfg: Config, j: Journal, id: AttestationId)
    requires History(cfg, j)
    ensures Standing(j, id).Some? <==> IsMade(j, id)
    ensures forall k: nat :: MadeAt(j, id, k) ==>
              && Standing(j, id) == Some(j[k].note.attestation.(used := Ever(j, Spends(id))))
              && Ever(j, WritesRule(j[k].note.attestation.ruleId))
  {
    AttestationsAreMade(cfg, j, id);
    LatestExists(j, Makes(id));
    AttestationsNameRules(cfg, j);
    if IsMade(j, id) {
      assert Attested(j)[id] in Attested(j);
      RulesAreWritten(j, Attested(j)[id].ruleId);
    } else if Ever(j, Makes(id)) {
      var k: nat :| Latest(j, Makes(id), k);
      assert !MadeAt(j, id, k);
    }
  }

  /** Attestations are made under existing rules, under global ones by the manual-award origin only, up to the cap. */
  lemma AttestLaw(cfg: Config, j: Journal, origin: Origin, rule: RuleId)
    requires History(cfg, j)
    ensures !origin.Signed? ==> AttestVerdict(cfg, j, origin, rule) == Err(BadOrigin)
    ensures origin.Signed? && !Ever(j, WritesRule(rule)) ==> AttestVerdict(cfg, j, origin, rule) == Err(RuleNotFound)
    ensures forall r: nat :: origin.Signed? && Latest(j, WritesRule(rule), r) ==>
              AttestVerdict(cfg, j, origin, rule) ==
                if j[r].note.rule.club == None && !cfg.manualAward(origin) then Err(NotAuthorizedAttestor)
                else if Count(j, Attests()) >= cfg.maxAttestations then Err(AttestationsOverflow)
                else Ok
  {
    RulesAreWritten(j, rule);
    AttestationsAreMade(cfg, j, 0);
  }

  // ---------------------------------------------------------------------------------------------------
  // Claims

  function ClaimsFrom(who: AccountId, rule: RuleId, start: nat): Entry -> bool {
    (e: Entry) => e.note.RewardClaimed? && e.note.who == who && e.note.ruleId == rule && start <= e.block
  }

  /** The claims of the current epoch are those since its first block. */
  lemma {:induction false} ClaimsAreSinceEpochStart(cfg: Config, j: Journal, who: AccountId, rule: RuleId, block: nat)
    requires History(cfg, j) && (j != [] ==> Last(j).block <= block)
    ensures Claims(cfg, j, who, rule, EpochAt(cfg, block)) == Count(j, ClaimsFrom(who, rule, EpochStart(cfg, block)))
  {
    if j == [] {
    } else {
      ClaimsAreSinceEpochStart(cfg, Front(j), who, rule, block);
      SameEpochExactlyWhen(cfg, Last(j).block, block);
    }
  }

  /** A claim succeeds exactly for the subject of an attestation that stands unused and unexpired, while fewer claims
      of the account under the rule than its limit lie at or after the first block of the epoch. */
  lemma ClaimLaw(cfg: Config, j: Journal, block: nat, now: Moment, origin: Origin, id: AttestationId)
    requires History(cfg, j) && (j != [] ==> Last(j).block <= block)
    ensures !origin.Signed? ==> ClaimVerdict(cfg, j, block, now, origin, id) == Err(BadOrigin)
    ensures origin.Signed? && !IsMade(j, id) ==>
              ClaimVerdict(cfg, j, block, now, origin, id) == Err(AttestationNotFound)
    ensures forall k: nat, r: nat ::
              origin.Signed? && MadeAt(j, id, k) && Latest(j, WritesRule(j[k].note.attestation.ruleId), r) ==>
                var att := j[k].note.attestation;
                ClaimVerdict(cfg, j, block, now, origin, id) ==
                  if att.subject != origin.who then Err(InvalidInput)
                  else if Ever(j, Spends(id)) then Err(AttestationUsed)
                  else if att.expiresAt.Some? && att.expiresAt.value < now then Err(AttestationExpired)
                  else if Count(j, ClaimsFrom(origin.who, att.ruleId, EpochStart(cfg, block)))
                          >= j[r].note.rule.maxPerEpoch then Err(ExceedsLimit)
                  else Ok
  {
    StandingIsRead(cfg, j, id);
    if origin.Signed? && IsMade(j, id) {
      var rule := Standing(j, id).value.ruleId;
      RulesAreWritten(j, rule);
      ClaimsAreSinceEpochStart(cfg, j, origin.who, rule, block);
    }
  }

  /** An attestation under a club's rule is revoked by its attestor, one under a global rule by the manual-award
      origin, whether or not it was used. */
  lemma RevokeLaw(cfg: Config, j: Journal, origin: Origin, id: AttestationId)
    requires History(cfg, j)
    ensures !origin.Signed? ==> RevokeVerdict(cfg, j, origin, id) == Err(BadOrigin)
    ensures origin.Signed? && !IsMade(j, id) ==> RevokeVerdict(cfg, j, origin, id) == Err(AttestationNotFound)
    ensures forall k: nat, r: nat ::
              origin.Signed? && MadeAt(j, id, k) && Latest(j, WritesRule(j[k].note.attestation.ruleId), r) ==>
                RevokeVerdict(cfg, j, origin, id) ==
                  if MayRevoke(cfg, j[k].note.attestation, j[r].note.rule, origin.who) then Ok
                  else Err(NotAuthorizedAttestor)
  {
    StandingIsRead(cfg, j, id);
    if origin.Signed? && IsMade(j, id) {
      RulesAreWritten(j, Standing(j, id).value.ruleId);
    }
  }

  predicate MayRevoke(cfg: Config, att: Attestation, rule: RewardRule, who: AccountId) {
    match rule.club
    case Some(_) => who == att.attestor
    case None => cfg.manualAward(Signed(who))
  }

  // ---------------------------------------------------------------------------------------------------
  // Who did it

  /** The account in the note had the right to make it, at that moment. */
  ghost predicate Rightful(cfg: Config, j: Journal, e: Entry) {
    match e.note
    case RuleSeeded(_, _) => true
    case RuleCreated(_, rule, creator) => cfg.ruleCreation(creator) && |rule.eventType| <= 32
    case AttestationCreated(_, att) =>
      exists r: nat :: Latest(j, WritesRule(att.ruleId), r)
                       && (j[r].note.rule.club == None ==> cfg.manualAward(Signed(att.attestor)))
    case AttestationRevoked(id, revoker) =>
      exists k: nat, r: nat :: MadeAt(j, id, k) && Latest(j, WritesRule(j[k].note.attestation.ruleId), r)
                               && MayRevoke(cfg, j[k].note.attestation, j[r].note.rule, revoker)
    case RewardClaimed(who, rule, id, amount) =>
      exists k: nat, r: nat :: MadeAt(j, id, k) && j[k].note.attestation.subject == who
                               && j[k].note.attestation.ruleId == rule && !Ever(j, Spends(id))
                               && Latest(j, WritesRule(rule), r) && j[r].note.rule.amount == amount
                               && Count(j, ClaimsFrom(who, rule, EpochStart(cfg, e.block))) < j[r].note.rule.maxPerEpoch
  }

  lemma EveryNoteIsRightful(cfg: Config, j: Journal, n: nat)
    requires History(cfg, j) && n < |j|
    ensures Rightful(cfg, j[..n], j[n])
  {
    HistoryPrefix(cfg, j, n);
    var before, e := j[..n], j[n];
    match e.note
    case RuleCreated(_, rule, creator) => CreateRuleLaw(cfg, creator, rule);
    case AttestationCreated(_, att) =>
      AttestLaw(cfg, before, Signed(att.attestor), att.ruleId);
      LatestExists(before, WritesRule(att.ruleId));
    case AttestationRevoked(id, revoker) =>
      RevokeLaw(cfg, before, Signed(revoker), id);
      var k, r := MadeUnderRule(cfg, before, id);
    case RewardClaimed(who, _, id, _) =>
      ClaimLaw(cfg, before, e.block, e.now, Signed(who), id);
      var k, r := MadeUnderRule(cfg, before, id);
    case _ =>
  }

  /** A standing attestation has a note that made it and a rule written last. */
  lemma MadeUnderRule(cfg: Config, j: Journal, id: AttestationId) returns (k: nat, r: nat)
    requires History(cfg, j) && IsMade(j, id)
    ensures MadeAt(j, id, k) && Latest(j, WritesRule(j[k].note.attestation.ruleId), r)
    ensures Standing(j, id).Some? && Standing(j, id).value.ruleId == j[k].note.attestation.ruleId
    ensures j[k].note.attestation.ruleId in Rules(j) && Rules(j)[j[k].note.attestation.ruleId] == j[r].note.rule
  {
    StandingIsRead(cfg, j, id);
    k :| MadeAt(j, id, k);
    var rule := j[k].note.attestation.ruleId;
    LatestExists(j, WritesRule(rule));
    RulesAreWritten(j, rule);
    r :| Latest(j, WritesRule(rule), r);
  }
}
