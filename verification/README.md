# Four club pallets, verified

A Dafny model of the storage state machines of TechConnectChain: the proposal router, the rewards pallet, the
member registry and the badges pallet, with proofs about all of their runs.

## How it is organised

Each pallet is described twice.

* **By its history** (`RouterBallot`/`RouterDispatch`, `RewardsHistory`, `RegistryHistory`, `BadgesHistory`). A
  *journal* lists what the committed calls did: the pallet's event, stamped with block, time or caller, and with
  the record written where the event leaves it out. *Verdict* functions say from the journal alone whether a
  call succeeds and with which error it fails. A rewards claim, for example, is admitted by counting earlier
  claims in the journal; there is no counter. `History` is the set of all journals that these rules allow, so a
  lemma with `requires History(cfg, j)` speaks about every reachable state, and one about `j[..k]` and `j`
  about every later moment of a run.
* **As it runs** (`RouterPallet`, `RewardsPallet`, `RegistryPallet`, `BadgesPallet`). A class holds the storage maps
  and counters, and one method per call updates them in place with the saturating arithmetic and bounded lists of
  the source. `Valid()` says that storage is what the journal says (of an officer list, up to its order). Every
  call of rewards, registry and badges is proved to keep `Valid()`, to return the verdict that the journal
  determines, to append its note if it succeeds and to leave every field as it was if it fails. The router's call
  bodies may leave storage half changed; its `Dispatch`, which rolls failures back, is proved to do the same.

So the cached, bounded, saturating storage machine and the journal are proved to agree call by call. Conversely
the `Replay` methods drive the rewards, registry and badges classes along any given history, so histories are
exactly the runs. The `...Theorems` modules (with `RouterReentry`, `RouterRuns`, `RouterPassTest`,
`RegistryCounts`) prove the safety properties of all histories. The router has `Run`, which applies an arbitrary
sequence of calls and blocks.

The `...Laws` modules (with `Readings` and `RouterForeign`) say of every call who succeeds with it, which error the
others get and what it records. They replay nothing: they read the notes by position, such as the latest note that
created a club, a vote of this account at any position, or the claims at or after the first block of the epoch. For
every note they also state that whoever it names had the right to make it (`EveryNoteIsRightful`). The replayed maps
and lists on which the verdicts rest are proved equal to these readings.

**Re-entrancy.** `execute` dispatches a stored call, which may be another router call, while it holds a copy of the
proposal, and writes the copy back afterwards. `RouterDispatch.Dispatch` follows such nesting to any `depth`.
`RouterReentry.DispatchKeeps` shows that the copy, once marked executed, is the latest record marked executed when it
is written back: the voting is over, so nothing else of the record can have moved. The result, for all stored calls
whatever, is that every run, however nested, is a history of one-at-a-time steps (`RunIsHistory`), and its tallies,
voter lists and executed flags are the replay of its votes and executions (`RunsAreSafe`).

What nesting can do is repeat an execution. A call that visits a proposal outside every attempt, where the stored call
of that proposal does so too, never succeeds (`CyclicNeverFinishes`), because executions would have to nest without
end. So a proposal is executed at most once over a run unless, at some submission, it is ready and its stored call
comes back to it inside an attempt (`ExecutedAtMostOnce`). This holds of every proposal while stored calls contain no
attempt, and of every proposal whose call does not lead back to it (`NeverRepeatsItself`). A dispatch finishes if no
proposal that it visits leads back to itself (`FinishesWhenAcyclic`).

**Results that qualify what the code promises.**

* A proposal that cancels itself while executing ends up stored as executed (`SelfCancelIsUndone`).
* A stored call that executes a second proposal and then its own inside an attempt can have its proposal executed twice
  (`SwallowingExecutesTwice`), so the condition of `ExecutedAtMostOnce` cannot be dropped. It is not necessary either:
  a proposal that attempts nothing but its own execution never comes to an end (`SelfAttemptNeverFinishes`).
* The 32-bit pass test agrees with the exact ratio exactly under the condition of `ExactWhen`; a unanimous vote
  meets a threshold of 100% exactly up to 429496 votes (`UnanimousPasses`).
* `remove_member_admin` checks neither the club nor the status of its subject. The cached member counts agree with
  the active members throughout a run if and only if every removal is clean and every registration finds its club's
  count below 2^32 - 1 (`AgreesExactlyWhenClean`); `WrongClubIsAccepted` is a run where they do not.
* Ids saturate, so the last id of a counter without a guard is handed out again and again once ids are exhausted.
  All results about proposals, rules, clubs and registry attestations hold for every id but the last. For the last
  id there are runs in which a proposal is executed twice (`LastIdIsExecutedTwice`) or overwritten by a stale copy
  (`StaleCopyIsWrittenBack`), a rule has more claims than its limit (`OverwrittenLimitFails`), a club loses its
  count (`LastClubLosesItsCount`), and an attestation registers two accounts (`LastIdRegistersTwice`).

## Assumptions

* A dispatch that returns an error leaves storage and events as they were. FRAME runs each call in a storage layer;
  `RouterPallet.Router.Dispatch` models that layer, because `propose` inserts before it can fail. For the same
  reason the `ProposalFailed` event, deposited just before an error return, never reaches the journal.
* Block number and clock never decrease. The largest block number is a parameter.
* Stored call bytes decode to one router call, one call of another pallet, a composite that dispatches a list of
  calls in order and fails with its first failure, or an attempt that swallows the failure of the call in it. A call
  of another pallet changes an arbitrary outside state and not the router's storage. A dispatch that would nest
  without end is cut off and leaves no trace.
* Configuration constants are arbitrary 32-bit or 64-bit numbers, and origin checks are arbitrary predicates.
* Accounts are natural numbers. Hashes, metadata and names are opaque.

Where comments and code differ, the model follows the code. Club membership is not checked by the router, nor
officer rights by rewards and badges (those checks are commented out), and `cancel` accepts executed proposals.

## Model

| member | source | states |
|---|---|---|
| RouterPallet.Router.Propose | pallets/proposal-router/src/lib.rs:183-262 | succeeds exactly for a signed caller with metadata within bounds and room in the club index, and then stores a zero-tally proposal with the given or default terms under the next id; otherwise the first failing check names the error |
| RouterTheorems.NewProposalIsOpen | pallets/proposal-router/src/lib.rs:219-260 | a new proposal accepts the vote of any account exactly from the present block to its end, which is the saturated sum, and cannot be executed before; it is appended to the index of its club and to no other |
| RouterPallet.Router.InsertProposal | pallets/proposal-router/src/lib.rs:243-260 | record, club index and next id move together, or the club index overflows |
| RouterPallet.Router.PushClubProposal | pallets/proposal-router/src/lib.rs:245-256 | the id goes to the end of the club's list, created if absent, and fails exactly at 1024 entries |
| RouterPallet.Router.Vote | pallets/proposal-router/src/lib.rs:269-306 | succeeds exactly for a signed account that is not yet in the journal's voter list, between start and end, with room in the list, and adds one vote; a failed push after the tally is raised changes nothing |
| RouterPallet.Router.Execute | pallets/proposal-router/src/lib.rs:312-362 | fails with the first check that the recorded votes and flags do not meet, or with ExecutionFailed if the nested dispatch fails; else it ends in the nested dispatch's world plus the copy written back as executed |
| RouterPallet.Router.Cancel | pallets/proposal-router/src/lib.rs:367-375 | succeeds exactly for the admin origin on a stored proposal, executed or not, and removes that record only |
| RouterPallet.Router.Dispatch | pallets/proposal-router/src/lib.rs:316-361 | keeps storage equal to the journal's replay and settles exactly as the history semantics; on failure every field is as before |
| RouterPallet.Router.DispatchAll | pallets/proposal-router/src/lib.rs:337-343 | a composite call runs its parts in order up to the first failure |
| RouterPallet.Router.Route | pallets/proposal-router/src/lib.rs:337-343 | each kind of call, attempts that swallow a failure included, leads where the history semantics says |
| RouterPallet.Router.constructor | pallets/proposal-router/src/lib.rs:113-126 | empty storage matches the empty journal |
| RouterPallet.Router.StorageIsReplay | pallets/proposal-router/src/lib.rs:55-75 | for every id below the last and all stored calls, stored tally, voter list and executed flag equal the replay of votes and executions; live club proposals are indexed; if stored calls contain no attempt there is at most one execution |
| RouterDispatch.DepthIsIrrelevant | pallets/proposal-router/src/lib.rs:338-343 | a dispatch that finishes has the same outcome at every larger nesting bound |
| RouterDispatch.DispatchExtends | pallets/proposal-router/src/lib.rs:258-260 | a dispatch only appends entries of the present block to the history and never lowers the next id |
| RouterTheorems.RecordsAreBelowNextId | pallets/proposal-router/src/lib.rs:219-258 | until ids are exhausted the next id is above all ids in use |
| RouterReentry.WriteBackIsAdmitted | pallets/proposal-router/src/lib.rs:316-361 | the copy written back after any nested dispatch is the latest record marked executed, so the write loses nothing |
| RouterReentry.DispatchKeeps | pallets/proposal-router/src/lib.rs:316-361 | any finished dispatch, nested to any depth and whatever calls are stored, extends a history to a history |
| RouterReentry.OnlyVisitedAreExecuted | pallets/proposal-router/src/lib.rs:338-350 | a finished dispatch executes nothing that its call does not visit through the calls of ready proposals |
| RouterReentry.UnvisitedIsUntouched | pallets/proposal-router/src/lib.rs:316-361 | a finished dispatch leaves the records of ended proposals that it does not visit alone |
| RouterReentry.VisitedAreExecuted | pallets/proposal-router/src/lib.rs:338-350 | a finished dispatch executes everything that it visits outside attempts |
| RouterReentry.CyclicNeverFinishes | pallets/proposal-router/src/lib.rs:316-345 | a call that visits a proposal outside every attempt, where that proposal's stored call does so too, never succeeds at any depth |
| RouterReentry.NotWithinItself | pallets/proposal-router/src/lib.rs:316-345 | a proposal whose stored call does not come back to it inside an attempt is not executed within its own execution |
| RouterReentry.ExecutedAtMostOnceMore | pallets/proposal-router/src/lib.rs:316-350 | a finished dispatch executes such a proposal below the last id at most once, and not at all if it was executed before |
| RouterReentry.NeverRepeatsItself | pallets/proposal-router/src/lib.rs:337-345 | this covers every proposal if no stored call contains an attempt, and every proposal whose stored call does not lead back to it |
| RouterReentry.CoversStays | pallets/proposal-router/src/lib.rs:316-335 | within a block no proposal becomes ready, so the calls ready at the start cover the whole dispatch |
| RouterReentry.FinishesWhenAcyclic | pallets/proposal-router/src/lib.rs:337-345 | if no proposal that a call visits leads back to itself, dispatching it ends in success or failure, nesting no deeper than there are ready proposals |
| RouterReentry.OpenOneMore | pallets/proposal-router/src/lib.rs:337-345 | along such a call, a proposal is never opened within its own execution |
| RouterRuns.RunIsHistory | pallets/proposal-router/src/lib.rs:171-376 | every run of arbitrary calls and blocks, nested executions included and whatever calls are stored, is a history of single steps |
| RouterRuns.RunsAreSafe | pallets/proposal-router/src/lib.rs:275-361 | over any run the records of proposals below the last id are the replay of their votes and executions, voters are distinct and within the bound, and thresholds above 10000 and ends at the last block are never executed |
| RouterRuns.ExecutedAtMostOnce | pallets/proposal-router/src/lib.rs:316-361 | over a run a proposal below the last id is executed at most once, if at no submission it was ready with a stored call that comes back to it inside an attempt |
| RouterRuns.PlainNeverRepeats | pallets/proposal-router/src/lib.rs:337-345 | that condition holds of every run and proposal while stored calls contain no attempt |
| RouterRuns.SelfAttemptNeverFinishes | pallets/proposal-router/src/lib.rs:337-345 | a proposal that attempts nothing but its own execution fails the condition, and its execution never comes to an end |
| RouterRuns.VisitedIsStoredExactlyWhen | pallets/proposal-router/src/lib.rs:343-373 | a proposal that a finished dispatch visits outside attempts is recorded as executed, once if its call does not come back to it inside an attempt, and is in storage exactly if one of its executions was not cancelled later |
| RouterRuns.ChainIsStoredExecuted | pallets/proposal-router/src/lib.rs:343-361 | where no stored call is a composite, every proposal on a finished chain of executions is stored, marked executed |
| RouterRuns.SelfCancelIsUndone | pallets/proposal-router/src/lib.rs:343-373 | a proposal that cancels itself is on record as cancelled and stored as executed |
| RouterRuns.RemovedStaysRemoved | pallets/proposal-router/src/lib.rs:369-373 | a proposal out of storage when a dispatch starts stays out |
| RouterRuns.LastIdIsExecutedTwice | pallets/proposal-router/src/lib.rs:219-258 | with ids exhausted, some run executes the last id twice |
| RouterRuns.LastIdLosesVotes | pallets/proposal-router/src/lib.rs:219-258 | with ids exhausted, a new proposal under the last id loses the votes that are on record for it |
| RouterRuns.StaleCopyIsWrittenBack | pallets/proposal-router/src/lib.rs:243-345 | with ids exhausted, a proposal under the last id that proposes overwrites the new proposal with its stale copy |
| RouterRuns.SwallowingExecutesTwice | pallets/proposal-router/src/lib.rs:337-350 | with an empty composite and a call that re-enters its proposal inside an attempt stored, some run executes a proposal twice |
| RouterRuns.IdsCanBeExhausted | pallets/proposal-router/src/lib.rs:258 | runs reach every value of the 64-bit proposal counter |
| RouterTheorems.RecordsEvolve | pallets/proposal-router/src/lib.rs:275-345 | below the last id, terms never change, votes are only added, an execution is never undone |
| RouterTheorems.RecordStep | pallets/proposal-router/src/lib.rs:243-345 | what each entry does to a record: creation of a fresh one, one more vote of a new voter in time, the executed flag of one that is ready but for that flag, or nothing |
| RouterTheorems.TallyIsFrozen | pallets/proposal-router/src/lib.rs:278-335 | past end nothing of a proposal but the executed flag moves |
| RouterTheorems.VerdictIsFrozen | pallets/proposal-router/src/lib.rs:320-335 | so its verdict is the same at every later block until it is executed |
| RouterTheorems.ExecutedExactlyWhen | pallets/proposal-router/src/lib.rs:318-350 | below the last id, the flag is set exactly if an execution is on record |
| RouterTheorems.TallyIsReplay | pallets/proposal-router/src/lib.rs:275-305 | below the last id, yea, nay and voters equal the votes on record; voters are distinct, yea plus nay is their number, within the bound, without saturation |
| RouterTheorems.ExecutionIsEarned | pallets/proposal-router/src/lib.rs:318-335 | below the last id, every execution came after end with the quorum and the exact ratio met by distinct voters |
| RouterTheorems.VerdictIsExact | pallets/proposal-router/src/lib.rs:323-335 | for any configuration, readiness is exactly quorum and exact ratio (zero threshold if nobody voted), both ways, for votes that meet the exactness condition |
| RouterTheorems.NoVoteAfterExecution | pallets/proposal-router/src/lib.rs:278-321 | below the last id, no vote on a proposal follows its execution |
| RouterTheorems.NeverExecuted | pallets/proposal-router/src/lib.rs:220-335 | below the last id, a threshold above 10000 or an end at the last block number is never executed |
| RouterTheorems.ClubIndexIsExact | pallets/proposal-router/src/lib.rs:240-258 | an id below the last is in a club's index exactly if it was proposed under that club |
| RouterTheorems.ClubIndexIsIncreasing | pallets/proposal-router/src/lib.rs:245-258 | the index is increasing and never holds more than 1024 ids; only the last id can repeat |
| RouterTheorems.ClubIndexOnlyGrows | pallets/proposal-router/src/lib.rs:367-373 | nothing, cancel included, takes an id out of an index |
| RouterTheorems.StoredUnlessCancelledLater | pallets/proposal-router/src/lib.rs:345-373 | an executed proposal below the last id is in storage exactly if one of its executions was not cancelled later |
| RouterLaws.ProposeLaw | pallets/proposal-router/src/lib.rs:183-262 | each answer of propose from the notes alone; on success the record has the proposer, call, scope and metadata given, the given or the default period, quorum and threshold, and no votes, under an id that counts the proposals before |
| RouterLaws.VoteLaw | pallets/proposal-router/src/lib.rs:269-306 | a vote succeeds exactly for a signer with no vote noted on a stored proposal, within the period of its creating note, with fewer votes noted than the bound, and then exactly that vote is noted; every other case has its error |
| RouterLaws.ExecuteLaw | pallets/proposal-router/src/lib.rs:312-340 | the checks of execute decided by the votes noted, the terms of the creating note and whether an execution is noted, each failure with its error |
| RouterLaws.TermsDecideVotes | pallets/proposal-router/src/lib.rs:219-279 | at any later moment of any history, the arguments of propose (or the defaults) decide when an account may vote |
| RouterLaws.TermsDecideExecution | pallets/proposal-router/src/lib.rs:219-340 | at any later moment of any history, the arguments of propose (or the defaults) decide which votes execution needs: the quorum, the threshold, the end and the call |
| RouterLaws.CancelLaw | pallets/proposal-router/src/lib.rs:367-375 | cancel succeeds exactly for the admin origin on a stored proposal, notes the canceller, and removes that proposal and no other |
| RouterLaws.StoredIsRead | pallets/proposal-router/src/lib.rs:243-373 | a proposal is in storage exactly if the latest note that moved it is no cancellation |
| RouterLaws.TermsAreAsProposed | pallets/proposal-router/src/lib.rs:226-241 | below the last id a proposal is created once, and its record keeps the terms of that note |
| RouterLaws.VotesAreRead | pallets/proposal-router/src/lib.rs:279-305 | voters, yeas and executions of the replay are those noted |
| RouterLaws.EveryNoteIsRightful | pallets/proposal-router/src/lib.rs:183-375 | every vote noted is the first of its account, in time and on a stored proposal; every execution had end, quorum and threshold behind it; every cancellation came from the admin origin |
| RouterLaws.GoneByAdmin | pallets/proposal-router/src/lib.rs:367-375 | in every run, a proposal made and no longer stored was cancelled by the admin origin |
| RouterForeign.ForeignExecution | pallets/proposal-router/src/lib.rs:337-358 | executing one call of another pallet, as the pallet account: its failure gives ExecutionFailed, its success leaves the state it made and the proposal executed |
| RouterForeign.FailureIsPassedOn | pallets/proposal-router/src/lib.rs:337-358 | a call that holds, outside attempts and through any nesting, a foreign call that always fails never succeeds |
| RouterForeign.OutsideIsFold | pallets/proposal-router/src/lib.rs:337-345 | the outside state after a finished dispatch is that of the foreign calls it ran, one after the other, each a success |
| RouterForeign.PlainTrace | pallets/proposal-router/src/lib.rs:337-345 | where nothing is attempted these are exactly the foreign calls in the unfolding of the call, from left to right |
| RouterForeign.PlainEffect | pallets/proposal-router/src/lib.rs:337-345 | so the effect of such a dispatch outside the router is the effect of those calls in order |
| RouterPassTest.AcceptedIsEarned | pallets/proposal-router/src/lib.rs:327-335 | acceptance implies the exact ratio |
| RouterPassTest.ExactWhen | pallets/proposal-router/src/lib.rs:327-335 | the saturating test equals the exact one for all thresholds if and only if the product fits or saturates without moving the quotient |
| RouterPassTest.UnanimousPasses | pallets/proposal-router/src/lib.rs:327-335 | a unanimous vote meets 100% exactly up to 429496 yeas |
| RouterPassTest.PercentIsAtMost10000 | pallets/proposal-router/src/lib.rs:328-334 | the computed percentage never exceeds 10000 |
| RewardsPallet.Rewards.constructor | pallets/rewards/src/lib.rs:418-429 | the genesis loop leaves exactly the storage that the list's journal describes |
| RewardsPallet.Rewards.CreateRule | pallets/rewards/src/lib.rs:175-199 | succeeds exactly for the rule-creation origin with an event type of at most 32 bytes; the rule gets the next id, which then saturates |
| RewardsPallet.Rewards.CreateAttestation | pallets/rewards/src/lib.rs:207-258 | succeeds exactly for a signed caller, an existing rule (global rules: manual-award origin) and fewer than MaxAttestations made; the id is the number made before |
| RewardsPallet.Rewards.ClaimReward | pallets/rewards/src/lib.rs:263-325 | the lazily reset saturating counter admits a claim exactly when the history has fewer claims than the limit |
| RewardsPallet.Rewards.RevokeAttestation | pallets/rewards/src/lib.rs:346-376 | succeeds exactly for a standing attestation and its attestor (global rules: manual-award origin), which then no longer stands |
| RewardsPallet.Rewards.CountersAreExact | pallets/rewards/src/lib.rs:64-70 | a stored counter is the number of claims in its epoch, there are none later, and no epoch exceeds the limit |
| RewardsPallet.Replay | pallets/rewards/src/lib.rs:171-429 | genesis and calls of any history, made in order, lead to it, so every history is a run |
| RewardsPallet.ResetCounterIsExact | pallets/rewards/src/lib.rs:299-307 | reading the counter, or zero if it is of another epoch, gives the number of claims so far |
| RewardsHistory.EpochOf | pallets/rewards/src/lib.rs:386-392 | a block lies within its epoch |
| RewardsHistory.EpochsAreMonotone | pallets/rewards/src/lib.rs:382-393 | later blocks are in the same or a later epoch |
| RewardsTheorems.LimitHeldExactlyWhen | pallets/rewards/src/lib.rs:299-311 | the limit per account, rule and epoch holds throughout a history if and only if no overwrite of the rule undercut earlier claims |
| RewardsTheorems.LimitBelowLastRule | pallets/rewards/src/lib.rs:299-311 | for every rule id but the last the limit holds in every history |
| RewardsTheorems.ClaimsWithinLargestLimit | pallets/rewards/src/lib.rs:299-311 | for every rule id, the last included, claims in an epoch never exceed the largest limit the rule has had |
| RewardsTheorems.OnlyTheLastRuleIsOverwritten | pallets/rewards/src/lib.rs:187-196 | create_rule overwrites a rule only under the last id, with ids exhausted |
| RewardsTheorems.OverwrittenLimitFails | pallets/rewards/src/lib.rs:187-196 | a run where an overwritten rule has more claims than its new limit |
| RewardsTheorems.ClaimsFitAttestations | pallets/rewards/src/lib.rs:237-315 | claims are at most the attestations made, and fewer while one is unused, so the counter never saturates |
| RewardsTheorems.UsedAtMostOnce | pallets/rewards/src/lib.rs:270-315 | an attestation pays at most once |
| RewardsTheorems.SpentStaysSpent | pallets/rewards/src/lib.rs:270-372 | a used or revoked attestation never pays again in any continuation |
| RewardsTheorems.RuleIsNeverMissing | pallets/rewards/src/lib.rs:286-352 | claims and revocations never report a missing rule |
| RewardsTheorems.AttestationsNameRules | pallets/rewards/src/lib.rs:216-253 | every attestation ever made names an existing rule, and their number is capped |
| RewardsTheorems.ZeroEpochLengthIsForLife | pallets/rewards/src/lib.rs:388-389 | with epoch length zero the claims of epoch 0 are the claims of a lifetime |
| RewardsTheorems.ClaimsPayTheRule | pallets/rewards/src/lib.rs:318-322 | the amounts claimed are the number of claims times the rule's amount |
| RewardsTheorems.NoClaimsAfterLastEpoch | pallets/rewards/src/lib.rs:301-305 | there is no claim in an epoch after the latest one on record, so resetting loses nothing |
| RewardsTheorems.GenesisSeedsRules | pallets/rewards/src/lib.rs:420-428 | every listed id has the rule listed last for it, and the next id is above it unless it is the largest id |
| RewardsTheorems.GenesisSeedsOnlyListedRules | pallets/rewards/src/lib.rs:420-422 | no other id has a rule |
| RewardsTheorems.GenesisNextRuleId | pallets/rewards/src/lib.rs:423-426 | the next id is one above some listed id, saturating, and zero if none is listed |
| RewardsLaws.EpochBrackets | pallets/rewards/src/lib.rs:382-393 | an epoch of positive length covers the blocks from its multiple of the length up to the next |
| RewardsLaws.SameEpochExactlyWhen | pallets/rewards/src/lib.rs:382-393 | a block is in the epoch of a later one exactly if it is not before the later number rounded down to a multiple of the length |
| RewardsLaws.ClaimsAreSinceEpochStart | pallets/rewards/src/lib.rs:299-311 | the claims counted against the limit are those noted at or after the first block of the epoch |
| RewardsLaws.ClaimLaw | pallets/rewards/src/lib.rs:263-325 | a claim succeeds exactly for the subject of an attestation noted and neither revoked nor used, unexpired, with fewer claims since the first block of the epoch than the latest limit; every other case has its error |
| RewardsLaws.AttestLaw | pallets/rewards/src/lib.rs:207-258 | attesting succeeds exactly for a signer under a rule that was written (a global one: manual-award origin) while fewer attestations than the cap are noted; every other case has its error |
| RewardsLaws.RevokeLaw | pallets/rewards/src/lib.rs:346-376 | revoking succeeds exactly for a standing attestation and its attestor (global rule: manual-award origin); every other case has its error |
| RewardsLaws.NextRuleIdIsAbove | pallets/rewards/src/lib.rs:187-426 | the next rule id is one above the largest id ever written, saturating |
| RewardsLaws.EveryNoteIsRightful | pallets/rewards/src/lib.rs:171-376 | every rule, attestation, revocation and claim noted was made by somebody entitled to it at that moment, and claims carry the amount of the latest rule |
| RegistryPallet.Registry.CreateClub | pallets/member-registry/src/lib.rs:178-199 | succeeds exactly for the root origin; the club has the given name, admin and metadata and starts without officers and members under the next, saturating id |
| RegistryPallet.Registry.AddOfficer | pallets/member-registry/src/lib.rs:204-218 | one more entry for the officer, up to 32 entries, by the admin only |
| RegistryPallet.Registry.RemoveOfficer | pallets/member-registry/src/lib.rs:223-240 | takes one entry away if there is one, leaving the multiset that the events give |
| RegistryPallet.Position | pallets/member-registry/src/lib.rs:233 | finds the first occurrence, or none exactly if absent |
| RegistryPallet.SwapRemoveTakesOne | pallets/member-registry/src/lib.rs:233-235 | swap_remove reorders the list but removes exactly one copy |
| RegistryPallet.Registry.IsOfficerOrAdmin | pallets/member-registry/src/lib.rs:435-438 | holds exactly for the admin or an account with an officer entry left by the events |
| RegistryPallet.Registry.EnsureClubAdmin | pallets/member-registry/src/lib.rs:209-212 | passes exactly for the admin that the journal records for an existing club, with the matching error otherwise |
| RegistryPallet.Registry.CreateAttestation | pallets/member-registry/src/lib.rs:246-278 | succeeds exactly for the admin or a present officer of an existing club; the attestation is unused and stamped with the time |
| RegistryPallet.Registry.EnsureMayRegister | pallets/member-registry/src/lib.rs:287-310 | passes exactly for the subject of an unused, unexpired attestation whose attestor is still admin or officer, if the subject has no record yet; errors come in the source's order |
| RegistryPallet.Registry.RegisterMember | pallets/member-registry/src/lib.rs:283-334 | record, cached count and used flag change together exactly when the journal admits the registration |
| RegistryPallet.Registry.AddMemberAdmin | pallets/member-registry/src/lib.rs:339-362 | succeeds exactly for the club's admin and a subject without record; record and saturating count follow |
| RegistryPallet.Registry.RemoveMemberAdmin | pallets/member-registry/src/lib.rs:367-392 | marks the record removed and lowers the named club's count, whatever club and status the subject has |
| RegistryPallet.Registry.SetRole | pallets/member-registry/src/lib.rs:397-411 | appends a role, up to eight |
| RegistryPallet.Registry.RevokeAttestation | pallets/member-registry/src/lib.rs:416-429 | succeeds exactly for a stored attestation and its attestor or the club's admin, and deletes it, used or not |
| RegistryPallet.Registry.StoredCounts | pallets/member-registry/src/lib.rs:312-388 | the stored count is at most the stored records and, below the last club id, at least the records (as far as 32 bits count them) less removals |
| RegistryPallet.Replay | pallets/member-registry/src/lib.rs:173-430 | the calls of any history, made in order, lead to it, so every history is a run |
| RegistryTheorems.RegisteredExactlyOnce | pallets/member-registry/src/lib.rs:310-353 | an account has exactly one registration on record if it has a member record, and none otherwise |
| RegistryTheorems.MembersHaveCause | pallets/member-registry/src/lib.rs:257-358 | every record arose from the admin or from an attestation whose attestor was authorised when issuing it and when it was used |
| RegistryTheorems.MembersEvolve | pallets/member-registry/src/lib.rs:376-382 | records are never deleted; club and joining time never change; status only moves to Removed |
| RegistryTheorems.AttestationHasOrigin | pallets/member-registry/src/lib.rs:263-275 | every stored attestation is one that was issued, unchanged but for its used flag |
| RegistryTheorems.UsesAreIssued | pallets/member-registry/src/lib.rs:289-333 | an id is used at most as often as it was issued, with one use left while unused |
| RegistryTheorems.IssuedAtMostOnce | pallets/member-registry/src/lib.rs:263-275 | every id but the last is issued exactly once if below the next id, and never otherwise |
| RegistryTheorems.SpentStaysSpent | pallets/member-registry/src/lib.rs:289-426 | a used or revoked attestation registers nobody in any continuation |
| RegistryTheorems.RegistrationsAreInjective | pallets/member-registry/src/lib.rs:289-333 | two registrations never share an attestation id, except the last |
| RegistryTheorems.LastIdRegistersTwice | pallets/member-registry/src/lib.rs:263-275 | a history in which the last attestation id, issued again, registers two accounts |
| RegistryTheorems.AttestationIdsCanBeExhausted | pallets/member-registry/src/lib.rs:275 | histories reach every value of the 64-bit attestation counter |
| RegistryTheorems.ClubsAreNeverMissing | pallets/member-registry/src/lib.rs:255-357 | every attestation and member names an existing club |
| RegistryTheorems.LateClubNotFoundIsUnreachable | pallets/member-registry/src/lib.rs:303-420 | registration and revocation never report a missing club |
| RegistryTheorems.OfficersFit | pallets/member-registry/src/lib.rs:213 | no club ever has more than 32 officer entries |
| RegistryCounts.CountIsAtMostRecords | pallets/member-registry/src/lib.rs:312-388 | the cached count of any club never exceeds its member records |
| RegistryCounts.CountIsAtLeastRemaining | pallets/member-registry/src/lib.rs:376-388 | below the last club id, the cached count is at least the records, as far as 32 bits count them, less the removals naming the club |
| RegistryCounts.LastClubLosesItsCount | pallets/member-registry/src/lib.rs:186-196 | with club ids exhausted, a history where the last club has a member, no removal and count zero |
| RegistryCounts.ClubIdsCanBeExhausted | pallets/member-registry/src/lib.rs:196 | histories reach every value of the 32-bit club counter |
| RegistryCounts.RemovalAgreesExactlyWhenClean | pallets/member-registry/src/lib.rs:376-388 | a removal keeps counts and active members in agreement, below the last club id, if and only if its subject is an active member of the named club, or not active while the count is zero |
| RegistryCounts.RegistrationAgreesExactlyWhenClean | pallets/member-registry/src/lib.rs:312-360 | a registration keeps the agreement if and only if its club is the last or counts fewer than 2^32 - 1 |
| RegistryCounts.AgreesExactlyWhenClean | pallets/member-registry/src/lib.rs:312-388 | counts equal active members throughout any history if and only if every removal and every registration is of that kind |
| RegistryCounts.WrongClubIsAccepted | pallets/member-registry/src/lib.rs:376-388 | a run where a removal naming another club breaks the agreement |
| RegistryLaws.OfficerEntries | pallets/member-registry/src/lib.rs:213-236 | an account's officer entries are its largest surplus of additions over removals, over all moments since the club was created |
| RegistryLaws.AuthorisedExactlyWhen | pallets/member-registry/src/lib.rs:435-438 | admin or officer is exactly the admin of the latest creation of the club, or an account made officer more often than removed since some moment after it |
| RegistryLaws.NewOfficerMayAttest | pallets/member-registry/src/lib.rs:204-261 | an account just made officer may attest |
| RegistryLaws.AttestLaw | pallets/member-registry/src/lib.rs:246-261 | attesting succeeds exactly for such an account of a club that was created; every other case has its error |
| RegistryLaws.RegisterLaw | pallets/member-registry/src/lib.rs:283-310 | registering succeeds exactly for the subject of an attestation made and neither revoked nor used since, unexpired, whose attestor may still attest, if no registration of the subject is noted; every other case has its error |
| RegistryLaws.AddOfficerLaw | pallets/member-registry/src/lib.rs:204-215 | officers are added by the admin named in the club's latest creation, below 32 entries; every other case has its error |
| RegistryLaws.AdminLaw | pallets/member-registry/src/lib.rs:223-232 | the admin test passes exactly for the account named in the club's latest creation; every other case has its error |
| RegistryLaws.AddMemberLaw | pallets/member-registry/src/lib.rs:339-349 | the admin adds exactly subjects of which no registration is noted; every other case has its error |
| RegistryLaws.RemoveMemberLaw | pallets/member-registry/src/lib.rs:367-382 | the admin removes exactly subjects of which a registration is noted; every other case has its error |
| RegistryLaws.SetRoleLaw | pallets/member-registry/src/lib.rs:397-409 | a role is given by the root origin to a registered account with fewer than eight roles noted; every other case has its error |
| RegistryLaws.RevokeLaw | pallets/member-registry/src/lib.rs:416-427 | an attestation that stands is revoked exactly by its attestor or the admin of its club; every other case has its error |
| RegistryLaws.MembersAreRegistered | pallets/member-registry/src/lib.rs:312-408 | a member record exists exactly if a registration is noted; its status and roles are those that removals and role notes give |
| RegistryLaws.AttestationsAreMade | pallets/member-registry/src/lib.rs:264-426 | an attestation is stored exactly if made and not revoked since, and used exactly if a later registration names it |
| RegistryLaws.NextIdsCount | pallets/member-registry/src/lib.rs:186-276 | the next ids are the numbers of clubs and attestations created, saturating |
| RegistryLaws.EveryNoteIsRightful | pallets/member-registry/src/lib.rs:173-430 | every note was made by a caller entitled to it at that moment |
| BadgesPallet.BadgeRegistry.constructor | pallets/badges/src/lib.rs:383-395 | the genesis loop leaves exactly the storage that the list's journal describes |
| BadgesPallet.BadgeRegistry.CreateClass | pallets/badges/src/lib.rs:170-198 | succeeds exactly for a signed creation origin while the next id is below MaxClasses; the class starts with zero badges |
| BadgesPallet.BadgeRegistry.EnsureMayIssue | pallets/badges/src/lib.rs:215-239 | passes exactly for the creator of an existing class with fewer badges issued than the limit |
| BadgesPallet.BadgeRegistry.IssueBadge | pallets/badges/src/lib.rs:207-278 | succeeds exactly when EnsureMayIssue passes; the badge carries the given flags or the class defaults under the number of badges issued so far |
| BadgesPallet.BadgeRegistry.StoreBadge | pallets/badges/src/lib.rs:255-275 | instance, count, index and next id move together |
| BadgesPallet.BadgeRegistry.PushInstance | pallets/badges/src/lib.rs:261-271 | a push beyond 1024 entries is ignored |
| BadgesPallet.BadgeRegistry.RevokeBadge | pallets/badges/src/lib.rs:283-317 | succeeds exactly for the class creator and a badge issued and not revoked, and deletes that badge only |
| BadgesPallet.BadgeRegistry.TransferBadge | pallets/badges/src/lib.rs:322-341 | succeeds exactly for the owner given by the events, a badge that is transferable and not soulbound, and changes the owner only |
| BadgesPallet.BadgeRegistry.OwnerInStorage | pallets/badges/src/lib.rs:347-349 | the stored owner is the one that replaying the events gives, for every class and instance |
| BadgesPallet.BadgeRegistry.StorageCounts | pallets/badges/src/lib.rs:237-313 | live plus revoked badges equal the next instance id, the index is the first 1024 ids, and created classes count their badges exactly |
| BadgesPallet.Replay | pallets/badges/src/lib.rs:164-395 | genesis and calls of any history, made in order, lead to it, so every history is a run |
| BadgesTheorems.NewClassIsNew | pallets/badges/src/lib.rs:180-195 | create_class never overwrites a class, whatever genesis seeded |
| BadgesTheorems.ClassesAreKept | pallets/badges/src/lib.rs:194 | after genesis classes are only added |
| BadgesTheorems.CreatedClassesStartAtZero | pallets/badges/src/lib.rs:185-194 | a class made by create_class stays as written, starting from zero badges |
| BadgesTheorems.GenesisSeedsClasses | pallets/badges/src/lib.rs:385-394 | every listed id has the class listed last for it, and the next id is above it unless it is the largest id |
| BadgesTheorems.GenesisSeedsOnlyListedClasses | pallets/badges/src/lib.rs:385-387 | no other id has a class |
| BadgesTheorems.IssuedFit | pallets/badges/src/lib.rs:237-239 | no class has more badges than the limit, and a class that does not exist has none |
| BadgesTheorems.OwnedExactlyWhile | pallets/badges/src/lib.rs:255-310 | a badge has an owner exactly if it was issued and not revoked |
| BadgesTheorems.RevokedStaysRevoked | pallets/badges/src/lib.rs:307-315 | a revoked badge never exists again in any continuation |
| BadgesTheorems.BadgesAreKept | pallets/badges/src/lib.rs:246-255 | flags, issuer, time and uri hash never change |
| BadgesTheorems.BoundBadgesStay | pallets/badges/src/lib.rs:329-340 | a soulbound or non-transferable badge stays with its first recipient |
| BadgesTheorems.OwnersChangeByTransfer | pallets/badges/src/lib.rs:329-340 | a badge changes hands only by a transfer from its present owner |
| BadgesTheorems.BadgesAreConserved | pallets/badges/src/lib.rs:255-313 | live and revoked badges add up to those issued |
| BadgesLaws.RevokeLaw | pallets/badges/src/lib.rs:283-311 | a revocation succeeds exactly for a signer who is the creator in the latest note of the class and a badge issued and not revoked; every other case has its error |
| BadgesLaws.IssueLaw | pallets/badges/src/lib.rs:207-239 | issuing succeeds exactly for the creator in the latest note of the class while fewer badges than the limit are noted; every other case has its error |
| BadgesLaws.TransferLaw | pallets/badges/src/lib.rs:322-341 | a transfer succeeds exactly for the last receiver of a badge that exists and was issued transferable and not soulbound; every other case has its error |
| BadgesLaws.CreateClassLaw | pallets/badges/src/lib.rs:170-184 | a class is created exactly by a signed creation origin while no id written so far reaches the limit; every other case has its error |
| BadgesLaws.OwnersAreRead | pallets/badges/src/lib.rs:246-340 | a badge exists exactly if issued and not revoked, and belongs to whoever received it last |
| BadgesLaws.NextClassIdIsAbove | pallets/badges/src/lib.rs:180-392 | the next class id is one above the largest id ever written, saturating |
| BadgesLaws.EveryNoteIsRightful | pallets/badges/src/lib.rs:165-341 | badges are issued and revoked by the creator of their class and transferred by their holder, at every moment of every history |
| BadgesLaws.GoneByItsCreator | pallets/badges/src/lib.rs:283-315 | every badge issued and gone was revoked by the creator of its class |

## Left out

- Node, runtime wiring, XCM, weights, chain specifications and RPC: plumbing over libraries that are not part of this model.
- The TCC token pallet: its asset calls are commented out and one checked counter remains.
- Reward payment and `award_manual`: the deposits are commented out; the amounts announced in claims are modelled.
- Membership checks across pallets: commented out in the source.
- SCALE encoding: stored calls are decoded by an arbitrary function.
- `instance_metadata`, `class_info`, `get_attestation`, `member_clubs` and similar getters: each returns one storage entry that the class invariants already pin down.
- The order of an officer list: `swap_remove` reorders it, and only the multiset of officers is tied to the events, because nothing in the pallet depends on the order.
- RouterRuns.RunsAreSafe: does not speak of the last proposal id; `LastIdIsExecutedTwice`, `LastIdLosesVotes` and `StaleCopyIsWrittenBack` show what happens under it.
- RouterRuns.ExecutedAtMostOnce: excludes the last proposal id, and its condition is sufficient but not necessary. `SwallowingExecutesTwice` is a run where it fails and so does the conclusion; under `SelfAttemptNeverFinishes` it fails and nothing is executed. Whether a proposal that meets itself inside an attempt is executed twice depends on whether the attempts in between fail, which only the dispatch itself shows.
- RegistryCounts.CountIsAtLeastRemaining: does not speak of the last club id, where `LastClubLosesItsCount` is a failing history.
- RegistryTheorems.RegistrationsAreInjective: excludes the last attestation id, where `LastIdRegistersTwice` is a failing history.
