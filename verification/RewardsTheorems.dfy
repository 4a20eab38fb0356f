/** What every history of the rewards pallet satisfies. */
module RewardsTheorems {
  import opened Common
  import opened RewardsHistory

  lemma {:induction false} HistoryPrefix(cfg: Config, j: Journal, k: nat)
    requires History(cfg, j) && k <= |j|
    ensures History(cfg, j[..k])
    ensures k < |j| ==> Admitted(cfg, j[..k], j[k]) && j[..k + 1] == j[..k] + [j[k]]
  {
    if k == |j| {
      assert j[..k] == j;
    } else if k == |j| - 1 {
      assert j[..k] == Front(j) && j[k] == Last(j);
    } else {
      HistoryPrefix(cfg, Front(j), k);
      assert Front(j)[..k] == j[..k];
    }
  }

  /** The calls of a history start where its seeds end. */
  lemma NextIsCall(cfg: Config, j: Journal, n: nat, k: nat)
    requires History(cfg, j) && n <= k < |j| && !j[n].note.RuleSeeded?
    ensures Admitted(cfg, j[..k], j[k]) && !j[k].note.RuleSeeded? && j[..k + 1] == j[..k] + [j[k]]
    ensures k + 1 < |j| ==> j[k].block <= j[k + 1].block && j[k].now <= j[k + 1].now
  {
    HistoryPrefix(cfg, j, k);
    HistoryPrefix(cfg, j, k + 1);
    assert Last(j[..k + 1]) == j[k];
    if k > n {
      SeedingHasOnlySeeds(j[..k], n);
    }
  }

  lemma {:induction false} SeedingHasOnlySeeds(j: Journal, n: nat)
    requires n < |j|
    ensures Seeding(j) ==> j[n].note.RuleSeeded?
  {
    if n == |j| - 1 {
    } else {
      SeedingHasOnlySeeds(Front(j), n);
    }
  }

  // ---------------------------------------------------------------------------------------------------
  // Rules

  lemma {:induction false} RulesAreBelowNext(cfg: Config, j: Journal)
    requires History(cfg, j)
    ensures forall id :: id in Rules(j) ==> id < NextRuleId(j) || NextRuleId(j) == U32_MAX
  {
    if j == [] {
    } else {
      RulesAreBelowNext(cfg, Front(j));
    }
  }

  /** Did `create_rule` ever replace this rule? */
  predicate Overwritten(j: Journal, rule: RuleId) {
    && j != []
    && (|| Overwritten(Front(j), rule)
        || (Last(j).note.RuleCreated? && Last(j).note.ruleId == rule && rule in Rules(Front(j))))
  }

  /** Only the last rule id can be overwritten, and only once rule ids are exhausted. */
  lemma {:induction false} OnlyTheLastRuleIsOverwritten(cfg: Config, j: Journal, rule: RuleId)
    requires History(cfg, j) && Overwritten(j, rule)
    ensures rule == U32_MAX && NextRuleId(j) == U32_MAX
  {
    RulesAreBelowNext(cfg, Front(j));
    if Overwritten(Front(j), rule) {
      OnlyTheLastRuleIsOverwritten(cfg, Front(j), rule);
      assert !Seeding(Front(j)) by {
        OverwrittenIsNotSeeding(Front(j), rule);
      }
    }
  }

  lemma {:induction false} OverwrittenIsNotSeeding(j: Journal, rule: RuleId)
    requires Overwritten(j, rule)
    ensures !Seeding(j)
  {
    if Seeding(j) {
      OverwrittenIsNotSeeding(Front(j), rule);
    }
  }

  lemma {:induction false} NoClaimsWhileSeeding(cfg: Config, j: Journal, who: AccountId, rule: RuleId, epoch: Epoch)
    requires Seeding(j)
    ensures Claims(cfg, j, who, rule, epoch) == 0 && Attested(j) == []
  {
    if j == [] {
    } else {
      NoClaimsWhileSeeding(cfg, Front(j), who, rule, epoch);
    }
  }

  /** The journal that a genesis list of rules leaves behind. */
  function Seeds(genesis: seq<(RuleId, RewardRule)>): Journal {
    if genesis == [] then []
    else Seeds(Front(genesis)) + [Entry(0, 0, RuleSeeded(Last(genesis).0, Last(genesis).1))]
  }

  lemma {:induction false} SeedsAreHistory(cfg: Config, genesis: seq<(RuleId, RewardRule)>)
    ensures var j := Seeds(genesis);
            Seeding(j) && History(cfg, j) && (j != [] ==> Last(j).block == 0 && Last(j).now == 0)
  {
    if genesis == [] {
    } else {
      SeedsAreHistory(cfg, Front(genesis));
      assert Front(Seeds(genesis)) == Seeds(Front(genesis));
      assert Admitted(cfg, Seeds(Front(genesis)), Last(Seeds(genesis)));
    }
  }

  /** The genesis list behind a journal of seeds. */
  function GenesisOf(j: Journal): seq<(RuleId, RewardRule)> {
    if j == [] then []
    else if Last(j).note.RuleSeeded? then GenesisOf(Front(j)) + [(Last(j).note.ruleId, Last(j).note.rule)]
    else GenesisOf(Front(j))
  }

  lemma {:induction false} SeedsOfGenesis(cfg: Config, j: Journal)
    requires History(cfg, j) && Seeding(j)
    ensures Seeds(GenesisOf(j)) == j
  {
    if j == [] {
    } else {
      SeedsOfGenesis(cfg, Front(j));
      assert Front(GenesisOf(j)) == GenesisOf(Front(j));
    }
  }

  ghost predicate IsLastFor(genesis: seq<(RuleId, RewardRule)>, i: nat)
    requires i < |genesis|
  {
    forall l :: i < l < |genesis| ==> genesis[l].0 != genesis[i].0
  }

  /** For any genesis list, in any order and with repetitions, every listed id has an entry in storage, the last
      one listed for it, and the next id is above it unless it is the largest possible id. */
  lemma {:induction false} GenesisSeedsRules(genesis: seq<(RuleId, RewardRule)>, i: nat)
    requires i < |genesis|
    ensures var j, id := Seeds(genesis), genesis[i].0;
            && id in Rules(j)
            && (IsLastFor(genesis, i) ==> Rules(j)[id] == genesis[i].1)
            && (id < NextRuleId(j) || id == U32_MAX)
  {
    assert Front(Seeds(genesis)) == Seeds(Front(genesis));
    if i == |genesis| - 1 {
    } else {
      GenesisSeedsRules(Front(genesis), i);
      assert Front(genesis)[i] == genesis[i];
      assert IsLastFor(genesis, i) ==> IsLastFor(Front(genesis), i) && genesis[|genesis| - 1].0 != genesis[i].0;
    }
  }

  /** Nothing else is in storage. */
  lemma {:induction false} GenesisSeedsOnlyListedRules(genesis: seq<(RuleId, RewardRule)>, id: RuleId) returns (i: nat)
    requires id in Rules(Seeds(genesis))
    ensures i < |genesis| && genesis[i].0 == id
  {
    assert Front(Seeds(genesis)) == Seeds(Front(genesis));
    if Last(genesis).0 == id {
      i := |genesis| - 1;
    } else {
      i := GenesisSeedsOnlyListedRules(Front(genesis), id);
    }
  }

  /** The next id is one above a listed id, saturating. */
  lemma {:induction false} GenesisNextRuleId(genesis: seq<(RuleId, RewardRule)>)
    ensures genesis == [] ==> NextRuleId(Seeds(genesis)) == 0
    ensures genesis != [] ==> exists i :: 0 <= i < |genesis| && NextRuleId(Seeds(genesis)) == SatAdd32(genesis[i].0, 1)
  {
    if genesis == [] {
    } else {
      GenesisNextRuleId(Front(genesis));
      assert Front(Seeds(genesis)) == Seeds(Front(genesis));
      assert NextRuleId(Seeds(genesis)) == SatAdd32(genesis[|genesis| - 1].0, 1)
             || NextRuleId(Seeds(genesis)) == NextRuleId(Seeds(Front(genesis)));
    }
  }

  // ---------------------------------------------------------------------------------------------------
  // Attestations

  /** Every attestation names a rule that exists, so neither a claim nor a revocation misses its rule. */
  lemma {:induction false} AttestationsNameRules(cfg: Config, j: Journal)
    requires History(cfg, j)
    ensures forall a :: a in Attested(j) ==> a.ruleId in Rules(j)
    ensures |Attested(j)| <= cfg.maxAttestations
  {
    if j == [] {
    } else {
      AttestationsNameRules(cfg, Front(j));
    }
  }

  lemma {:induction false} RuleIsNeverMissing(cfg: Config, j: Journal, block: nat, now: Moment, origin: Origin,
                                              id: AttestationId)
    requires History(cfg, j)
    ensures ClaimVerdict(cfg, j, block, now, origin, id) != Err(RuleNotFound)
    ensures RevokeVerdict(cfg, j, origin, id) != Err(RuleNotFound)
  {
    AttestationsNameRules(cfg, j);
    if Standing(j, id).Some? {
      assert Attested(j)[id] in Attested(j);
    }
  }

  /** An attestation pays at most once. */
  lemma {:induction false} UsedAtMostOnce(cfg: Config, j: Journal, id: AttestationId)
    requires History(cfg, j)
    ensures Uses(j, id) <= 1
    ensures Uses(j, id) == 1 || Revoked(j, id) ==> id < |Attested(j)|
  {
    if j == [] {
    } else {
      UsedAtMostOnce(cfg, Front(j), id);
    }
  }

  /** A used or revoked attestation never pays again, however the history goes on. */
  lemma {:induction false} SpentStaysSpent(cfg: Config, j: Journal, k: nat, id: AttestationId)
    requires History(cfg, j) && k <= |j|
    requires Uses(j[..k], id) > 0 || Revoked(j[..k], id)
    ensures Uses(j, id) == Uses(j[..k], id)
    ensures Revoked(j[..k], id) ==> Revoked(j, id)
  {
    if k < |j| {
      assert Front(j)[..k] == j[..k];
      SpentStaysSpent(cfg, Front(j), k, id);
    } else {
      assert j[..k] == j;
    }
  }

  // ---------------------------------------------------------------------------------------------------
  // Counting claims

  function ClaimedIds(j: Journal): set<AttestationId> {
    if j == [] then {}
    else if Last(j).note.RewardClaimed? then ClaimedIds(Front(j)) + {Last(j).note.attestationId}
    else ClaimedIds(Front(j))
  }

  lemma {:induction false} ClaimedIdsAreUsed(cfg: Config, j: Journal)
    requires History(cfg, j)
    ensures forall id :: id in ClaimedIds(j) <==> Uses(j, id) > 0
    ensures forall id :: id in ClaimedIds(j) ==> id < |Attested(j)|
  {
    if j == [] {
    } else {
      ClaimedIdsAreUsed(cfg, Front(j));
    }
  }

  lemma {:induction false} ClaimsUseDistinctAttestations(cfg: Config, j: Journal, who: AccountId, rule: RuleId,
                                                         epoch: Epoch)
    requires History(cfg, j)
    ensures Claims(cfg, j, who, rule, epoch) <= |ClaimedIds(j)|
  {
    if j == [] {
    } else {
      ClaimsUseDistinctAttestations(cfg, Front(j), who, rule, epoch);
      ClaimedIdsAreUsed(cfg, Front(j));
    }
  }

  lemma {:induction false} BoundedSetSize(s: set<AttestationId>, n: nat)
    requires forall x :: x in s ==> x < n
    ensures |s| <= n
  {
    if n == 0 {
      assert s == {};
    } else if n - 1 in s {
      var last: AttestationId := n - 1;
      BoundedSetSize(s - {last}, n - 1);
    } else {
      BoundedSetSize(s, n - 1);
    }
  }

  /** Claims never outnumber attestations, and while one is unspent there are fewer. So the 32-bit claim
      counter never saturates, whatever the rule's limit. */
  lemma ClaimsFitAttestations(cfg: Config, j: Journal, who: AccountId, rule: RuleId, epoch: Epoch)
    requires History(cfg, j)
    ensures Claims(cfg, j, who, rule, epoch) <= |Attested(j)| <= cfg.maxAttestations
    ensures (exists id: AttestationId :: id < |Attested(j)| && Uses(j, id) == 0) ==>
              Claims(cfg, j, who, rule, epoch) < |Attested(j)|
  {
    AttestationsNameRules(cfg, j);
    ClaimedIdsAreUsed(cfg, j);
    ClaimsUseDistinctAttestations(cfg, j, who, rule, epoch);
    BoundedSetSize(ClaimedIds(j), |Attested(j)|);
    if id: AttestationId :| id < |Attested(j)| && Uses(j, id) == 0 {
      BoundedSetSize(ClaimedIds(j) + {id}, |Attested(j)|);
    }
  }

  // ---------------------------------------------------------------------------------------------------
  // The limit per epoch

  lemma {:induction false} NoRuleNoClaims(cfg: Config, j: Journal, who: AccountId, rule: RuleId, epoch: Epoch)
    requires History(cfg, j) && rule !in Rules(j)
    ensures Claims(cfg, j, who, rule, epoch) == 0
  {
    if j == [] {
    } else {
      NoRuleNoClaims(cfg, Front(j), who, rule, epoch);
    }
  }

  ghost predicate WithinLimit(cfg: Config, j: Journal, rule: RuleId, limit: u32) {
    forall who, epoch :: Claims(cfg, j, who, rule, epoch) <= limit
  }

  ghost predicate LimitHolds(cfg: Config, j: Journal, rule: RuleId) {
    rule in Rules(j) ==> WithinLimit(cfg, j, rule, Rules(j)[rule].maxPerEpoch)
  }

  /** The limit held all along the history. */
  ghost predicate LimitAlwaysHeld(cfg: Config, j: Journal, rule: RuleId) {
    LimitHolds(cfg, j, rule) && (j != [] ==> LimitAlwaysHeld(cfg, Front(j), rule))
  }

  /** Whenever `create_rule` replaced the rule, the new limit covered all claims made so far. */
  ghost predicate OverwritesAreGentle(cfg: Config, j: Journal, rule: RuleId) {
    j != [] ==>
      && OverwritesAreGentle(cfg, Front(j), rule)
      && (Last(j).note.RuleCreated? && Last(j).note.ruleId == rule && rule in Rules(Front(j)) ==>
            WithinLimit(cfg, Front(j), rule, Last(j).note.rule.maxPerEpoch))
  }

  /** The exact condition for the limit: no account ever claims more often under a rule in an epoch than the
      rule allows, if and only if no overwrite of the rule undercut the claims before it. */
  lemma {:induction false} LimitHeldExactlyWhen(cfg: Config, j: Journal, rule: RuleId)
    requires History(cfg, j)
    ensures LimitAlwaysHeld(cfg, j, rule) <==> OverwritesAreGentle(cfg, j, rule)
  {
    if j == [] {
    } else {
      var before, e := Front(j), Last(j);
      LimitHeldExactlyWhen(cfg, before, rule);
      if e.note.RewardClaimed? {
        if LimitHolds(cfg, before, rule) {
          assert LimitHolds(cfg, j, rule);
        }
      } else {
        forall who, epoch
          ensures Claims(cfg, j, who, rule, epoch) == Claims(cfg, before, who, rule, epoch)
          ensures rule !in Rules(before) || e.note.RuleSeeded? ==> Claims(cfg, before, who, rule, epoch) == 0
        {
          if rule !in Rules(before) {
            NoRuleNoClaims(cfg, before, who, rule, epoch);
          } else if e.note.RuleSeeded? {
            NoClaimsWhileSeeding(cfg, before, who, rule, epoch);
          }
        }
      }
    }
  }

  lemma {:induction false} NotOverwrittenIsGentle(cfg: Config, j: Journal, rule: RuleId)
    requires !Overwritten(j, rule)
    ensures OverwritesAreGentle(cfg, j, rule)
  {
    if j == [] {
    } else {
      NotOverwrittenIsGentle(cfg, Front(j), rule);
    }
  }

  /** Rule ids below the last are never overwritten, so for them the limit holds in every history. */
  lemma LimitBelowLastRule(cfg: Config, j: Journal, who: AccountId, rule: RuleId, epoch: Epoch)
    requires History(cfg, j) && rule < U32_MAX && rule in Rules(j)
    ensures Claims(cfg, j, who, rule, epoch) <= Rules(j)[rule].maxPerEpoch
  {
    if Overwritten(j, rule) {
      OnlyTheLastRuleIsOverwritten(cfg, j, rule);
    }
    NotOverwrittenIsGentle(cfg, j, rule);
    LimitHeldExactlyWhen(cfg, j, rule);
    assert LimitHolds(cfg, j, rule);
  }

  /** The largest limit that a rule has had so far. */
  function LargestLimit(j: Journal, rule: RuleId): nat {
    if j == [] then 0 else
      var before := LargestLimit(Front(j), rule);
      match Last(j).note
      case RuleSeeded(id, r) => if id == rule && r.maxPerEpoch > before then r.maxPerEpoch else before
      case RuleCreated(id, r, _) => if id == rule && r.maxPerEpoch > before then r.maxPerEpoch else before
      case _ => before
  }

  /** For every rule id, the last one included, claims in an epoch never exceed the largest limit so far. */
  lemma {:induction false} ClaimsWithinLargestLimit(cfg: Config, j: Journal, who: AccountId, rule: RuleId, epoch: Epoch)
    requires History(cfg, j)
    ensures Claims(cfg, j, who, rule, epoch) <= LargestLimit(j, rule)
    ensures rule in Rules(j) ==> Rules(j)[rule].maxPerEpoch <= LargestLimit(j, rule)
  {
    if j == [] {
    } else {
      ClaimsWithinLargestLimit(cfg, Front(j), who, rule, epoch);
    }
  }

  function Lifetime(j: Journal, who: AccountId, rule: RuleId): nat {
    if j == [] then 0
    else
      Lifetime(Front(j), who, rule)
      + (if Last(j).note.RewardClaimed? && Last(j).note.who == who && Last(j).note.ruleId == rule then 1 else 0)
  }

  /** Without epochs the limit is for life. */
  lemma {:induction false} ZeroEpochLengthIsForLife(cfg: Config, j: Journal, who: AccountId, rule: RuleId)
    requires cfg.epochLengthInBlocks == 0
    ensures Lifetime(j, who, rule) == Claims(cfg, j, who, rule, 0)
  {
    if j == [] {
    } else {
      ZeroEpochLengthIsForLife(cfg, Front(j), who, rule);
    }
  }

  /** The amounts claimed by an account under a rule in an epoch. */
  function Claimed(cfg: Config, j: Journal, who: AccountId, rule: RuleId, epoch: Epoch): nat {
    if j == [] then 0
    else
      Claimed(cfg, Front(j), who, rule, epoch)
      + (if IsClaim(cfg, Last(j), who, rule, epoch) then Last(j).note.amount else 0)
  }

  /** Every claim pays the rule's amount, no more and no less. */
  lemma {:induction false} ClaimsPayTheRule(cfg: Config, j: Journal, who: AccountId, rule: RuleId, epoch: Epoch)
    requires History(cfg, j) && !Overwritten(j, rule) && rule in Rules(j)
    ensures Claimed(cfg, j, who, rule, epoch) == Claims(cfg, j, who, rule, epoch) * Rules(j)[rule].amount
  {
    if rule !in Rules(Front(j)) {
      NoRuleNoClaims(cfg, Front(j), who, rule, epoch);
      NothingClaimed(cfg, Front(j), who, rule, epoch);
    } else if Last(j).note.RuleSeeded? {
      NoClaimsWhileSeeding(cfg, Front(j), who, rule, epoch);
      NothingClaimed(cfg, Front(j), who, rule, epoch);
    } else {
      ClaimsPayTheRule(cfg, Front(j), who, rule, epoch);
      assert Rules(j)[rule] == Rules(Front(j))[rule];
      OneMoreClaim(Claims(cfg, Front(j), who, rule, epoch), Rules(j)[rule].amount);
    }
  }

  lemma OneMoreClaim(n: nat, amount: nat)
    ensures (n + 1) * amount == n * amount + amount
  {
  }

  lemma {:induction false} NothingClaimed(cfg: Config, j: Journal, who: AccountId, rule: RuleId, epoch: Epoch)
    requires Claims(cfg, j, who, rule, epoch) == 0
    ensures Claimed(cfg, j, who, rule, epoch) == 0
  {
    if j == [] {
    } else {
      NothingClaimed(cfg, Front(j), who, rule, epoch);
    }
  }

  // ---------------------------------------------------------------------------------------------------
  // The lazily reset counter

  /** The epoch of an account's latest claim under a rule, 0 before the first. */
  function LastEpoch(cfg: Config, j: Journal, who: AccountId, rule: RuleId): Epoch {
    if j == [] then 0
    else if Last(j).note.RewardClaimed? && Last(j).note.who == who && Last(j).note.ruleId == rule
    then EpochAt(cfg, Last(j).block)
    else LastEpoch(cfg, Front(j), who, rule)
  }

  /** A counter that remembers only the latest epoch forgets nothing that matters: there are no claims in any
      later epoch. */
  lemma {:induction false} NoClaimsAfterLastEpoch(cfg: Config, j: Journal, who: AccountId, rule: RuleId, epoch: Epoch)
    requires History(cfg, j)
    requires LastEpoch(cfg, j, who, rule) < epoch
    ensures Claims(cfg, j, who, rule, epoch) == 0
  {
    if j == [] {
    } else {
      LastEpochIsPast(cfg, Front(j), who, rule);
      if Front(j) != [] {
        EpochsAreMonotone(cfg, Last(Front(j)).block, Last(j).block);
      }
      NoClaimsAfterLastEpoch(cfg, Front(j), who, rule, epoch);
    }
  }

  lemma {:induction false} LastEpochIsPast(cfg: Config, j: Journal, who: AccountId, rule: RuleId)
    requires History(cfg, j)
    ensures LastEpoch(cfg, j, who, rule) <= if j == [] then 0 else EpochAt(cfg, Last(j).block)
  {
    if j == [] {
    } else {
      LastEpochIsPast(cfg, Front(j), who, rule);
      if Front(j) != [] {
        EpochsAreMonotone(cfg, Last(Front(j)).block, Last(j).block);
      }
    }
  }

  // ---------------------------------------------------------------------------------------------------
  // Exhausted rule ids

  /** A seeded last rule with limit 1, and one claim under it. */
  function OneClaimUnderLastRule(who: AccountId): Journal {
    [Entry(0, 0, RuleSeeded(U32_MAX, RewardRule([], 1, 1, Some(0), None)))]
    + [Entry(0, 0, AttestationCreated(0, Attestation(who, U32_MAX, who, 0, None, false, None)))]
    + [Entry(0, 0, RewardClaimed(who, U32_MAX, 0, 1))]
  }

  lemma OneClaimUnderLastRuleIsHistory(cfg: Config, who: AccountId)
    requires cfg.maxAttestations > 0
    ensures var j := OneClaimUnderLastRule(who);
            History(cfg, j) && NextRuleId(j) == U32_MAX && U32_MAX in Rules(j) && Claims(cfg, j, who, U32_MAX, 0) == 1
  {
    var j := OneClaimUnderLastRule(who);
    var j0: Journal, j1, j2 := [], j[..1], j[..2];
    assert Front(j1) == j0 && Front(j2) == j1 && Front(j) == j2;
    assert Admitted(cfg, j0, Last(j1));
    assert History(cfg, j1) && NextRuleId(j1) == U32_MAX && Attested(j1) == [];
    assert !Revoked(j1, 0) && Uses(j1, 0) == 0 && Claims(cfg, j1, who, U32_MAX, 0) == 0;
    assert AttestVerdict(cfg, j1, Signed(who), U32_MAX) == Ok;
    assert EpochAt(cfg, 0) == 0 && History(cfg, j2);
    assert ClaimVerdict(cfg, j2, 0, 0, Signed(who), 0) == Ok;
  }

  /** What exhausting the rule ids breaks: after that claim `create_rule` replaces the rule by one of limit 0. */
  lemma OverwrittenLimitFails(cfg: Config, who: AccountId)
    requires cfg.maxAttestations > 0 && cfg.ruleCreation(Root)
    ensures exists j :: History(cfg, j) && U32_MAX in Rules(j)
                        && Claims(cfg, j, who, U32_MAX, 0) > Rules(j)[U32_MAX].maxPerEpoch
  {
    OneClaimUnderLastRuleIsHistory(cfg, who);
    var strict := RewardRule([], 1, 0, Some(0), None);
    var before := OneClaimUnderLastRule(who);
    var j := before + [Entry(0, 0, RuleCreated(U32_MAX, strict, Root))];
    assert Front(j) == before;
    assert CreateRuleVerdict(cfg, Root, strict) == Ok;
    assert History(cfg, j);
  }
}
