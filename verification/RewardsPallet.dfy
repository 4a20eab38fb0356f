/**
The rewards pallet as it runs: storage maps, id counters and one claim counter per account and rule that is
reset when a claim arrives in a new epoch. Each call returns what the journal alone determines.
*/
module RewardsPallet {
  import opened Common
  import opened RewardsHistory
  import opened RewardsTheorems

  datatype ClaimCounter = ClaimCounter(epoch: Epoch, count: u32)

  type Attestations = map<AttestationId, Attestation>
  type Counters = map<(AccountId, RuleId), ClaimCounter>

  ghost predicate AttestationMatches(attestations: Attestations, j: Journal, id: AttestationId) {
    Standing(j, id) == if id in attestations then Some(attestations[id]) else None
  }

  ghost predicate AttestationsMatch(attestations: Attestations, j: Journal) {
    forall id {:trigger AttestationMatches(attestations, j, id)} :: AttestationMatches(attestations, j, id)
  }

  function CounterOf(counters: Counters, who: AccountId, rule: RuleId): ClaimCounter {
    if (who, rule) in counters then counters[(who, rule)] else ClaimCounter(0, 0)
  }

  /** A counter holds the epoch of the latest claim and the exact number of claims in that epoch. */
  ghost predicate CounterMatches(cfg: Config, counters: Counters, j: Journal, who: AccountId, rule: RuleId) {
    && CounterOf(counters, who, rule).epoch == LastEpoch(cfg, j, who, rule)
    && CounterOf(counters, who, rule).count == Claims(cfg, j, who, rule, LastEpoch(cfg, j, who, rule))
  }

  ghost predicate CountersMatch(cfg: Config, counters: Counters, j: Journal) {
    forall who, rule {:trigger CounterMatches(cfg, counters, j, who, rule)} ::
      CounterMatches(cfg, counters, j, who, rule)
  }

  lemma AttestationsMatchAfterCreate(cfg: Config, attestations: Attestations, j: Journal, e: Entry)
    requires History(cfg, j) && AttestationsMatch(attestations, j)
    requires e.note.AttestationCreated? && Admitted(cfg, j, e)
    ensures AttestationsMatch(attestations[e.note.attestationId := e.note.attestation], j + [e])
  {
    assert Front(j + [e]) == j;
    UsedAtMostOnce(cfg, j, e.note.attestationId);
    var attestations' := attestations[e.note.attestationId := e.note.attestation];
    forall id: AttestationId ensures AttestationMatches(attestations', j + [e], id) {
      assert AttestationMatches(attestations, j, id);
    }
  }

  lemma AttestationsMatchAfterRevoke(attestations: Attestations, j: Journal, e: Entry)
    requires AttestationsMatch(attestations, j) && e.note.AttestationRevoked?
    ensures AttestationsMatch(attestations - {e.note.attestationId}, j + [e])
  {
    assert Front(j + [e]) == j;
    var attestations' := attestations - {e.note.attestationId};
    forall id: AttestationId ensures AttestationMatches(attestations', j + [e], id) {
      assert AttestationMatches(attestations, j, id);
    }
  }

  lemma AttestationsMatchAfterClaim(attestations: Attestations, j: Journal, e: Entry)
    requires AttestationsMatch(attestations, j) && e.note.RewardClaimed? && e.note.attestationId in attestations
    ensures var id := e.note.attestationId;
            AttestationsMatch(attestations[id := attestations[id].(used := true)], j + [e])
  {
    assert Front(j + [e]) == j;
    var claimed := e.note.attestationId;
    var attestations' := attestations[claimed := attestations[claimed].(used := true)];
    forall id: AttestationId ensures AttestationMatches(attestations', j + [e], id) {
      assert AttestationMatches(attestations, j, id);
    }
  }

  lemma AttestationsMatchAfterRule(attestations: Attestations, j: Journal, e: Entry)
    requires AttestationsMatch(attestations, j) && (e.note.RuleSeeded? || e.note.RuleCreated?)
    ensures AttestationsMatch(attestations, j + [e])
  {
    assert Front(j + [e]) == j;
    forall id: AttestationId ensures AttestationMatches(attestations, j + [e], id) {
      assert AttestationMatches(attestations, j, id);
    }
  }

  lemma CountersMatchAfterClaim(cfg: Config, counters: Counters, j: Journal, e: Entry, counter: ClaimCounter)
    requires CountersMatch(cfg, counters, j) && e.note.RewardClaimed?
    requires counter.epoch == EpochAt(cfg, e.block)
    requires counter.count == Claims(cfg, j, e.note.who, e.note.ruleId, counter.epoch) + 1
    ensures CountersMatch(cfg, counters[(e.note.who, e.note.ruleId) := counter], j + [e])
  {
    var counters' := counters[(e.note.who, e.note.ruleId) := counter];
    assert Front(j + [e]) == j;
    forall who: AccountId, rule: RuleId ensures CounterMatches(cfg, counters', j + [e], who, rule) {
      assert CounterMatches(cfg, counters, j, who, rule);
      if (who, rule) != (e.note.who, e.note.ruleId) {
        assert CounterOf(counters', who, rule) == CounterOf(counters, who, rule);
        assert LastEpoch(cfg, j + [e], who, rule) == LastEpoch(cfg, j, who, rule);
      }
    }
  }

  lemma CountersMatchAfter(cfg: Config, counters: Counters, j: Journal, e: Entry)
    requires CountersMatch(cfg, counters, j) && !e.note.RewardClaimed?
    ensures CountersMatch(cfg, counters, j + [e])
  {
    assert Front(j + [e]) == j;
    forall who: AccountId, rule: RuleId ensures CounterMatches(cfg, counters, j + [e], who, rule) {
      assert CounterMatches(cfg, counters, j, who, rule);
    }
  }

  /** Reading a counter and resetting it if it is of another epoch gives the number of claims so far. */
  lemma ResetCounterIsExact(cfg: Config, counters: Counters, j: Journal, who: AccountId, rule: RuleId,
                            block: nat)
    requires History(cfg, j) && CountersMatch(cfg, counters, j)
    requires j != [] ==> Last(j).block <= block
    ensures var counter := CounterOf(counters, who, rule);
            Claims(cfg, j, who, rule, EpochAt(cfg, block)) ==
              if counter.epoch != EpochAt(cfg, block) then 0 else counter.count
  {
    var current := EpochAt(cfg, block);
    assert CounterMatches(cfg, counters, j, who, rule);
    LastEpochIsPast(cfg, j, who, rule);
    if j != [] {
      EpochsAreMonotone(cfg, Last(j).block, block);
    }
    if LastEpoch(cfg, j, who, rule) < current {
      NoClaimsAfterLastEpoch(cfg, j, who, rule, current);
    }
  }

  class Rewards {
    const cfg: Config
    var rules: map<RuleId, RewardRule>
    var nextRuleId: RuleId
    var attestations: Attestations
    var nextAttestationId: AttestationId
    var claimsThisEpoch: Counters
    var block: nat
    var now: Moment
    ghost var journal: Journal

    ghost predicate Valid()
      reads this
    {
      && History(cfg, journal)
      && (journal != [] ==> Last(journal).block <= block && Last(journal).now <= now)
      && rules == Rules(journal)
      && nextRuleId == NextRuleId(journal)
      && nextAttestationId == |Attested(journal)|
      && AttestationsMatch(attestations, journal)
      && CountersMatch(cfg, claimsThisEpoch, journal)
    }

    /** Genesis: inserts the rules one by one and keeps the next id above them. */
    constructor (cfg: Config, genesis: seq<(RuleId, RewardRule)>)
      ensures Valid() && this.cfg == cfg
      ensures journal == Seeds(genesis) && block == 0 && now == 0
    {
      this.cfg := cfg;
      rules, nextRuleId := map[], 0;
      attestations, nextAttestationId, claimsThisEpoch := map[], 0, map[];
      block, now := 0, 0;
      journal := [];
      new;
      for i := 0 to |genesis|
        invariant Valid() && this.cfg == cfg && block == 0 && now == 0
        invariant journal == Seeds(genesis[..i])
      {
        var (id, rule) := genesis[i];
        ghost var e := Entry(0, 0, RuleSeeded(id, rule));
        assert Front(genesis[..i + 1]) == genesis[..i];
        SeedsAreHistory(cfg, genesis[..i]);
        assert Admitted(cfg, journal, e);
        assert Front(journal + [e]) == journal;
        AttestationsMatchAfterRule(attestations, journal, e);
        CountersMatchAfter(cfg, claimsThisEpoch, journal, e);
        rules := rules[id := rule];
        var next := nextRuleId;
        if id >= next {
          nextRuleId := SatAdd32(id, 1);
        }
        journal := journal + [e];
      }
      assert genesis[..|genesis|] == genesis;
    }

    /** Blocks and time pass; neither ever decreases. */
    method Advance(blocks: nat, millis: nat)
      requires Valid()
      modifies this`block, this`now
      ensures Valid() && block == old(block) + blocks && now == Min(old(now) + millis, U64_MAX)
    {
      block, now := block + blocks, Min(now + millis, U64_MAX);
    }

    /** A stored counter is the exact number of claims in its epoch, never above the rule's limit. */
    lemma CountersAreExact(who: AccountId, rule: RuleId)
      requires Valid()
      ensures var counter := CounterOf(claimsThisEpoch, who, rule);
              && counter.count == Claims(cfg, journal, who, rule, counter.epoch) <= cfg.maxAttestations
              && (forall epoch :: counter.epoch < epoch ==> Claims(cfg, journal, who, rule, epoch) == 0)
              && (rule in rules && rule < U32_MAX ==>
                    forall epoch :: Claims(cfg, journal, who, rule, epoch) <= rules[rule].maxPerEpoch)
    {
      var counter := CounterOf(claimsThisEpoch, who, rule);
      assert CounterMatches(cfg, claimsThisEpoch, journal, who, rule);
      ClaimsFitAttestations(cfg, journal, who, rule, counter.epoch);
      forall epoch: Epoch | counter.epoch < epoch ensures Claims(cfg, journal, who, rule, epoch) == 0 {
        NoClaimsAfterLastEpoch(cfg, journal, who, rule, epoch);
      }
      if rule in rules && rule < U32_MAX {
        forall epoch: Epoch ensures Claims(cfg, journal, who, rule, epoch) <= rules[rule].maxPerEpoch {
          LimitBelowLastRule(cfg, journal, who, rule, epoch);
        }
      }
    }

    function CurrentEpoch(): Epoch
      reads this
    {
      EpochAt(cfg, block)
    }

    method CreateRule(origin: Origin, rule: RewardRule) returns (r: Verdict)
      requires Valid()
      modifies this
      ensures Valid() && block == old(block) && now == old(now)
      ensures r == CreateRuleVerdict(cfg, origin, rule)
      ensures r != Ok ==> unchanged(this)
      ensures r == Ok ==>
                journal == old(journal) + [Entry(block, now, RuleCreated(NextRuleId(old(journal)), rule, origin))]
    {
      if !cfg.ruleCreation(origin) {
        return Err(BadOrigin);
      }
      if |rule.eventType| > MAX_EVENT_TYPE_LEN {
        return Err(InvalidInput);
      }
      var id := nextRuleId;
      ghost var e := Entry(block, now, RuleCreated(id, rule, origin));
      assert Admitted(cfg, journal, e);
      AttestationsMatchAfterRule(attestations, journal, e);
      CountersMatchAfter(cfg, claimsThisEpoch, journal, e);
      assert Front(journal + [e]) == journal;
      rules := rules[id := rule];
      nextRuleId := SatAdd32(id, 1);
      journal := journal + [e];
      return Ok;
    }

    method CreateAttestation(origin: Origin, subject: AccountId, ruleId: RuleId, expiresAt: Option<Moment>,
                             metadata: Option<Hash>)
      returns (r: Verdict)
      requires Valid()
      modifies this
      ensures Valid() && block == old(block) && now == old(now)
      ensures r == AttestVerdict(cfg, old(journal), origin, ruleId)
      ensures r == Ok ==>
                var att := Attestation(subject, ruleId, origin.who, now, expiresAt, false, metadata);
                journal == old(journal) + [Entry(block, now, AttestationCreated(|Attested(old(journal))|, att))]
      ensures r != Ok ==> unchanged(this)
    {
      if !origin.Signed? {
        return Err(BadOrigin);
      }
      if ruleId !in rules {
        return Err(RuleNotFound);
      }
      var rule := rules[ruleId];
      if rule.club.None? && !cfg.manualAward(Signed(origin.who)) {
        return Err(NotAuthorizedAttestor);
      }
      var id := nextAttestationId;
      if !(id < cfg.maxAttestations) {
        return Err(AttestationsOverflow);
      }
      var att := Attestation(subject, ruleId, origin.who, now, expiresAt, false, metadata);
      ghost var e := Entry(block, now, AttestationCreated(id, att));
      assert Admitted(cfg, journal, e);
      AttestationsMatchAfterCreate(cfg, attestations, journal, e);
      CountersMatchAfter(cfg, claimsThisEpoch, journal, e);
      assert Front(journal + [e]) == journal;
      attestations := attestations[id := att];
      nextAttestationId := SatAdd64(id, 1);
      journal := journal + [e];
      return Ok;
    }

    /** Consumes an attestation. The counter is reset if it is of another epoch, then raised by one. */
    method ClaimReward(origin: Origin, attestationId: AttestationId) returns (r: Verdict)
      requires Valid()
      modifies this
      ensures Valid() && block == old(block) && now == old(now)
      ensures r == ClaimVerdict(cfg, old(journal), block, now, origin, attestationId)
      ensures r == Ok ==>
                var rule := Standing(old(journal), attestationId).value.ruleId;
                var amount := Rules(old(journal))[rule].amount;
                journal == old(journal) + [Entry(block, now, RewardClaimed(origin.who, rule, attestationId, amount))]
      ensures r != Ok ==> unchanged(this)
    {
      if !origin.Signed? {
        return Err(BadOrigin);
      }
      var who := origin.who;
      assert AttestationMatches(attestations, journal, attestationId);
      if attestationId !in attestations {
        return Err(AttestationNotFound);
      }
      var att := attestations[attestationId];
      if att.subject != who {
        return Err(InvalidInput);
      }
      if att.used {
        return Err(AttestationUsed);
      }
      if att.expiresAt.Some? && !(now <= att.expiresAt.value) {
        return Err(AttestationExpired);
      }
      if att.ruleId !in rules {
        return Err(RuleNotFound);
      }
      var rule := rules[att.ruleId];
      var currentEpoch := CurrentEpoch();
      ResetCounterIsExact(cfg, claimsThisEpoch, journal, who, att.ruleId, block);
      ClaimsFitAttestations(cfg, journal, who, att.ruleId, currentEpoch);
      var counter := CounterOf(claimsThisEpoch, who, att.ruleId);
      if counter.epoch != currentEpoch {
        counter := ClaimCounter(currentEpoch, 0);
      }
      var newCount := SatAdd32(counter.count, 1);
      assert newCount == counter.count + 1;
      if !(newCount <= rule.maxPerEpoch) {
        return Err(ExceedsLimit);
      }
      counter := counter.(count := newCount);
      ghost var e := Entry(block, now, RewardClaimed(who, att.ruleId, attestationId, rule.amount));
      assert Admitted(cfg, journal, e);
      AttestationsMatchAfterClaim(attestations, journal, e);
      CountersMatchAfterClaim(cfg, claimsThisEpoch, journal, e, counter);
      assert Front(journal + [e]) == journal;
      claimsThisEpoch := claimsThisEpoch[(who, att.ruleId) := counter];
      attestations := attestations[attestationId := att.(used := true)];
      journal := journal + [e];
      return Ok;
    }

    method RevokeAttestation(origin: Origin, attestationId: AttestationId) returns (r: Verdict)
      requires Valid()
      modifies this
      ensures Valid() && block == old(block) && now == old(now)
      ensures r == RevokeVerdict(cfg, old(journal), origin, attestationId)
      ensures r != Ok ==> unchanged(this)
      ensures r == Ok ==>
                journal == old(journal) + [Entry(block, now, AttestationRevoked(attestationId, origin.who))]
    {
      if !origin.Signed? {
        return Err(BadOrigin);
      }
      assert AttestationMatches(attestations, journal, attestationId);
      if attestationId !in attestations {
        return Err(AttestationNotFound);
      }
      var att := attestations[attestationId];
      if att.ruleId !in rules {
        return Err(RuleNotFound);
      }
      var rule := rules[att.ruleId];
      if rule.club.Some? {
        if origin.who != att.attestor {
          return Err(NotAuthorizedAttestor);
        }
      } else if !cfg.manualAward(Signed(origin.who)) {
        return Err(NotAuthorizedAttestor);
      }
      ghost var e := Entry(block, now, AttestationRevoked(attestationId, origin.who));
      assert Admitted(cfg, journal, e);
      AttestationsMatchAfterRevoke(attestations, journal, e);
      CountersMatchAfter(cfg, claimsThisEpoch, journal, e);
      assert Front(journal + [e]) == journal;
      attestations := attestations - {attestationId};
      journal := journal + [e];
      return Ok;
    }
  
    /** Makes the call that an admitted entry stands for. */
    method Follow(e: Entry)
      requires Valid() && Admitted(cfg, journal, e) && !e.note.RuleSeeded? && block <= e.block && now <= e.now
      modifies this
      ensures Valid() && block == e.block && now == e.now && journal == old(journal) + [e]
    {
      Advance(e.block - block, e.now - now);
      var r: Verdict;
      match e.note {
        case RuleCreated(_, rule, creator) => r := CreateRule(creator, rule);
        case AttestationCreated(_, att) =>
          r := CreateAttestation(Signed(att.attestor), att.subject, att.ruleId, att.expiresAt, att.metadata);
        case AttestationRevoked(id, revoker) => r := RevokeAttestation(Signed(revoker), id);
        case RewardClaimed(who, _, id, _) => r := ClaimReward(Signed(who), id);
      }
    }
  }

  /** Makes the recorded calls from position `n` on. */
  method FollowFrom(rewards: Rewards, j: Journal, n: nat)
    requires rewards.Valid() && History(rewards.cfg, j)
    requires n <= |j| && rewards.journal == j[..n] && (n < |j| ==> !j[n].note.RuleSeeded?)
    requires rewards.block == 0 && rewards.now == 0
    modifies rewards
    ensures rewards.Valid() && rewards.journal == j
  {
    for k := n to |j|
      invariant rewards.Valid() && rewards.journal == j[..k]
      invariant k < |j| ==> rewards.block <= j[k].block && rewards.now <= j[k].now
    {
      NextIsCall(rewards.cfg, j, n, k);
      rewards.Follow(j[k]);
    }
    assert j[..|j|] == j;
  }

  /** Every history is a run of the pallet: the genesis rules it starts with and the calls it records, made in
      order, lead to it. */
  method Replay(cfg: Config, j: Journal) returns (rewards: Rewards)
    requires History(cfg, j)
    ensures fresh(rewards) && rewards.cfg == cfg && rewards.Valid() && rewards.journal == j
  {
    var n := 0;
    while n < |j| && j[n].note.RuleSeeded?
      invariant n <= |j| && Seeding(j[..n])
    {
      assert Front(j[..n + 1]) == j[..n];
      n := n + 1;
    }
    var genesis := GenesisOf(j[..n]);
    HistoryPrefix(cfg, j, n);
    SeedsOfGenesis(cfg, j[..n]);
    rewards := new Rewards(cfg, genesis);
    FollowFrom(rewards, j, n);
  }
}
