/** What every history of the member registry satisfies. */
module RegistryTheorems {
  import opened Common
  import opened RegistryHistory

  lemma HistoryGoesOn(cfg: Config, j: Journal, e: Entry)
    requires History(cfg, j) && Admitted(cfg, j, e)
    ensures History(cfg, j + [e]) && Last(j + [e]) == e
  {
    assert Front(j + [e]) == j;
  }

  lemma {:induction false} HistoryPrefix(cfg: Config, j: Journal, k: nat)
    requires History(cfg, j) && k <= |j|
    ensures History(cfg, j[..k])
    ensures k < |j| ==> Admitted(cfg, j[..k], j[k]) && j[..k + 1] == j[..k] + [j[k]]
  {
    if k < |j| - 1 {
      HistoryPrefix(cfg, Front(j), k);
      assert Front(j)[..k] == j[..k];
    } else if k < |j| {
      assert j[..k] == Front(j) && j[k] == Last(j);
    } else {
      assert j[..k] == j;
    }
  }

  // ---------------------------------------------------------------------------------------------------
  // Clubs

  lemma {:induction false} ClubsAreBelowNext(cfg: Config, j: Journal)
    requires History(cfg, j)
    ensures forall c :: c in Admins(j) ==> c < NextClubId(j) || NextClubId(j) == U32_MAX
  {
    if j == [] {
    } else {
      ClubsAreBelowNext(cfg, Front(j));
    }
  }

  /** Every attestation and every member names a club that exists. */
  lemma {:induction false} ClubsAreNeverMissing(cfg: Config, j: Journal)
    requires History(cfg, j)
    ensures forall id :: id in Attestations(j) ==> Attestations(j)[id].club in Admins(j)
    ensures forall who :: who in Members(j) ==> |Members(j)[who].clubs| == 1 && Members(j)[who].clubs[0] in Admins(j)
  {
    if j == [] {
    } else {
      ClubsAreNeverMissing(cfg, Front(j));
    }
  }

  /** So a registration or a revocation never reports a missing club. */
  lemma {:induction false} LateClubNotFoundIsUnreachable(cfg: Config, j: Journal, now: Moment, origin: Origin,
                                                         id: AttestationId)
    requires History(cfg, j)
    ensures RegisterVerdict(j, now, origin, id) != Err(ClubNotFound)
    ensures RevokeVerdict(j, origin, id) != Err(ClubNotFound)
  {
    ClubsAreNeverMissing(cfg, j);
  }

  lemma {:induction false} OfficersFit(cfg: Config, j: Journal, club: ClubId)
    requires History(cfg, j)
    ensures |OfficersOf(j, club)| <= MAX_OFFICERS
  {
    if j == [] {
    } else {
      OfficersFit(cfg, Front(j), club);
    }
  }

  // ---------------------------------------------------------------------------------------------------
  // Attestations

  function Issues(j: Journal, id: AttestationId): nat {
    if j == [] then 0
    else Issues(Front(j), id) + (if Last(j).note.AttestationCreated? && Last(j).note.id == id then 1 else 0)
  }

  predicate IsUseOf(e: Entry, id: AttestationId) {
    e.note.MemberRegistered? && e.note.via == Some(id)
  }

  function Uses(j: Journal, id: AttestationId): nat {
    if j == [] then 0 else Uses(Front(j), id) + (if IsUseOf(Last(j), id) then 1 else 0)
  }

  /** An attestation id is used at most as often as it was issued, with one use left while it is unused. */
  lemma {:induction false} UsesAreIssued(cfg: Config, j: Journal, id: AttestationId)
    requires History(cfg, j)
    ensures Uses(j, id) + (if id in Attestations(j) && !Attestations(j)[id].used then 1 else 0) <= Issues(j, id)
  {
    if j == [] {
    } else {
      UsesAreIssued(cfg, Front(j), id);
    }
  }

  /** All ids but the last are issued at most once, and then in order. */
  lemma {:induction false} IssuedAtMostOnce(cfg: Config, j: Journal, id: AttestationId)
    requires History(cfg, j) && id < U64_MAX
    ensures Issues(j, id) == if id < NextAttestationId(j) then 1 else 0
  {
    if j == [] {
    } else {
      IssuedAtMostOnce(cfg, Front(j), id);
    }
  }

  lemma {:induction false} AttestationsAreIssued(cfg: Config, j: Journal)
    requires History(cfg, j)
    ensures forall id :: id in Attestations(j) ==> id < NextAttestationId(j) || id == U64_MAX
  {
    if j == [] {
    } else {
      AttestationsAreIssued(cfg, Front(j));
    }
  }

  /** A used or revoked attestation never registers anybody again, however the history goes on. */
  lemma {:induction false} SpentStaysSpent(cfg: Config, j: Journal, k: nat, id: AttestationId)
    requires History(cfg, j) && k <= |j|
    requires id < U64_MAX && id < NextAttestationId(j[..k])
    requires id in Attestations(j[..k]) ==> Attestations(j[..k])[id].used
    ensures Uses(j, id) == Uses(j[..k], id) && id < NextAttestationId(j)
    ensures id in Attestations(j) ==> Attestations(j)[id].used
  {
    if k < |j| {
      assert Front(j)[..k] == j[..k];
      SpentStaysSpent(cfg, Front(j), k, id);
    } else {
      assert j[..k] == j;
    }
  }

  /** Two registrations never share an attestation id, except the last one. */
  lemma RegistrationsAreInjective(cfg: Config, j: Journal, k: nat, l: nat, id: AttestationId)
    requires History(cfg, j) && k < l < |j|
    requires IsUseOf(j[k], id) && IsUseOf(j[l], id)
    ensures id == U64_MAX
  {
    if id < U64_MAX {
      HistoryPrefix(cfg, j, k);
      HistoryPrefix(cfg, j, l);
      HistoryPrefix(cfg, j, k + 1);
      AttestationsAreIssued(cfg, j[..k]);
      assert j[..l][..k + 1] == j[..k + 1];
      SpentStaysSpent(cfg, j[..l], k + 1, id);
    }
  }

  /** The admin 1 of club 0 has issued `n` attestations and nothing else has happened. */
  ghost predicate OnlyIssued(cfg: Config, j: Journal, n: AttestationId) {
    && History(cfg, j) && NextAttestationId(j) == n && Admins(j) == map[0 := 1] && Members(j) == map[]
    && (j != [] ==> Last(j).now == 0)
  }

  function IssueNote(id: AttestationId, subject: AccountId): Entry {
    Entry(Signed(1), 0, AttestationCreated(id, Attestation(subject, 0, 1, 0, None, false, None)))
  }

  lemma {:induction false} AttestationIdsCanBeExhausted(cfg: Config, n: AttestationId)
    requires cfg.rootClubAdmin(Root)
    ensures exists j :: OnlyIssued(cfg, j, n)
    decreases n
  {
    if n == 0 {
      var none: Journal, e := [], Entry(Root, 0, ClubCreated(0, 1, Charter([], None)));
      assert NextClubId(none) == 0 && Admins(none) == map[] && Members(none) == map[] && Admitted(cfg, none, e);
      HistoryGoesOn(cfg, none, e);
      assert Front(none + [e]) == none && Last(none + [e]) == e;
      assert Admins(none + [e]) == map[][0 := 1] && Members(none + [e]) == map[];
      assert OnlyIssued(cfg, none + [e], 0);
    } else {
      AttestationIdsCanBeExhausted(cfg, n - 1);
      var j :| OnlyIssued(cfg, j, n - 1);
      var e := IssueNote(n - 1, 2);
      assert Admitted(cfg, j, e);
      HistoryGoesOn(cfg, j, e);
      assert Front(j + [e]) == j;
      assert OnlyIssued(cfg, j + [e], n);
    }
  }

  /** Issuing the last id and registering with it, whether or not it was used before. */
  lemma IssueAndUseLastId(cfg: Config, j: Journal, who: AccountId)
    requires History(cfg, j) && NextAttestationId(j) == U64_MAX && Admins(j) == map[0 := 1] && who !in Members(j)
    requires j != [] ==> Last(j).now == 0
    ensures var use := Entry(Signed(who), 0, MemberRegistered(who, 0, 0, Some(U64_MAX)));
            var j' := j + [IssueNote(U64_MAX, who)] + [use];
            && History(cfg, j') && NextAttestationId(j') == U64_MAX && Admins(j') == map[0 := 1]
            && Members(j').Keys == Members(j).Keys + {who} && Uses(j', U64_MAX) == Uses(j, U64_MAX) + 1
  {
    var e1, e2 := IssueNote(U64_MAX, who), Entry(Signed(who), 0, MemberRegistered(who, 0, 0, Some(U64_MAX)));
    var j1 := j + [e1];
    HistoryGoesOn(cfg, j, e1);
    assert Front(j1) == j && Front(j1 + [e2]) == j1;
    assert Attestations(j1)[U64_MAX] == e1.note.attestation && Authorised(j1, 0, 1);
    assert RegisterVerdict(j1, 0, Signed(who), U64_MAX) == Ok;
    HistoryGoesOn(cfg, j1, e2);
  }

  /** What exhausting the ids breaks: some history registers two accounts with the last attestation id. */
  lemma LastIdRegistersTwice(cfg: Config)
    requires cfg.rootClubAdmin(Root)
    ensures exists j :: History(cfg, j) && Uses(j, U64_MAX) == 2
  {
    AttestationIdsCanBeExhausted(cfg, U64_MAX);
    var j :| OnlyIssued(cfg, j, U64_MAX);
    assert Uses(j, U64_MAX) == 0 by { NoMembersNoUses(cfg, j, U64_MAX); }
    IssueAndUseLastId(cfg, j, 2);
    var j2 := j + [IssueNote(U64_MAX, 2)] + [Entry(Signed(2), 0, MemberRegistered(2, 0, 0, Some(U64_MAX)))];
    IssueAndUseLastId(cfg, j2, 3);
  }

  lemma {:induction false} NoMembersNoUses(cfg: Config, j: Journal, id: AttestationId)
    requires History(cfg, j) && Members(j) == map[]
    ensures Uses(j, id) == 0
  {
    if j == [] {
    } else {
      NoMembersNoUses(cfg, Front(j), id);
    }
  }

  /** Where a stored attestation comes from. */
  lemma {:induction false} AttestationHasOrigin(cfg: Config, j: Journal, id: AttestationId) returns (i: nat)
    requires History(cfg, j) && id in Attestations(j)
    ensures i < |j| && j[i].note == AttestationCreated(id, Attestations(j)[id].(used := false))
    ensures Admitted(cfg, j[..i], j[i])
  {
    if Last(j).note.AttestationCreated? && Last(j).note.id == id {
      i := |j| - 1;
      assert j[..i] == Front(j);
    } else {
      i := AttestationHasOrigin(cfg, Front(j), id);
      assert Front(j)[..i] == j[..i];
    }
  }

  // ---------------------------------------------------------------------------------------------------
  // Members

  function Registrations(j: Journal, who: AccountId): nat {
    if j == [] then 0
    else Registrations(Front(j), who) + (if Last(j).note.MemberRegistered? && Last(j).note.who == who then 1 else 0)
  }

  /** Member records and registrations correspond one to one. */
  lemma {:induction false} RegisteredExactlyOnce(cfg: Config, j: Journal, who: AccountId)
    requires History(cfg, j)
    ensures Registrations(j, who) == if who in Members(j) then 1 else 0
  {
    if j == [] {
    } else {
      RegisteredExactlyOnce(cfg, Front(j), who);
    }
  }

  /** A member record is never deleted; its club and joining time never change; its status only ever moves
      from Active to Removed; roles are only added. */
  lemma {:induction false} MembersEvolve(cfg: Config, j: Journal, k: nat, who: AccountId)
    requires History(cfg, j) && k <= |j| && who in Members(j[..k])
    ensures who in Members(j)
    ensures var m, m' := Members(j[..k])[who], Members(j)[who];
            && m'.clubs == m.clubs && m'.joinedAt == m.joinedAt && m'.metadata == m.metadata && m.roles <= m'.roles
            && (m'.status == m.status || m'.status == Removed)
  {
    if k < |j| {
      assert Front(j)[..k] == j[..k];
      MembersEvolve(cfg, Front(j), k, who);
    } else {
      assert j[..k] == j;
    }
  }

  ghost predicate ByAdmin(j: Journal, k: nat)
    requires k < |j| && j[k].note.MemberRegistered?
  {
    && j[k].note.via == None
    && j[k].note.club in Admins(j[..k])
    && j[k].caller == Signed(Admins(j[..k])[j[k].note.club])
    && j[k].note.joinedAt == j[k].now
  }

  /** Registration `k` used the attestation issued at `i`, whose attestor was the admin or an officer of the
      club when issuing it and still when it was used. */
  ghost predicate ByAttestation(j: Journal, k: nat, i: nat)
    requires k < |j| && j[k].note.MemberRegistered?
  {
    && i < k
    && j[i].note.AttestationCreated?
    && j[k].note.via == Some(j[i].note.id)
    && var att, reg := j[i].note.attestation, j[k].note;
    && att.subject == reg.who && j[k].caller == Signed(reg.who)
    && att.club == reg.club && j[i].caller == Signed(att.attestor)
    && Authorised(j[..i], att.club, att.attestor)
    && Authorised(j[..k], att.club, att.attestor)
    && (att.expiresAt.Some? ==> j[k].now <= att.expiresAt.value)
    && reg.joinedAt == j[i].now
  }

  lemma RegistrationHasCause(cfg: Config, j: Journal, k: nat)
    requires History(cfg, j) && k < |j| && j[k].note.MemberRegistered?
    ensures ByAdmin(j, k) || exists i: nat :: ByAttestation(j, k, i)
  {
    HistoryPrefix(cfg, j, k);
    if j[k].note.via.Some? {
      var i := AttestationHasOrigin(cfg, j[..k], j[k].note.via.value);
      assert j[..k][..i] == j[..i];
      assert ByAttestation(j, k, i);
    }
  }

  /** Every member record arises from a registration by the club's admin or by such an attestation. */
  lemma {:induction false} MembersHaveCause(cfg: Config, j: Journal, who: AccountId) returns (k: nat)
    requires History(cfg, j) && who in Members(j)
    ensures k < |j| && j[k].note.MemberRegistered? && j[k].note.who == who
    ensures Members(j)[who].clubs == [j[k].note.club] && Members(j)[who].joinedAt == j[k].note.joinedAt
    ensures ByAdmin(j, k) || exists i: nat :: ByAttestation(j, k, i)
    ensures Members(j)[who].status != Suspended
  {
    if Last(j).note.MemberRegistered? && Last(j).note.who == who {
      k := |j| - 1;
    } else {
      k := MembersHaveCause(cfg, Front(j), who);
    }
    RegistrationHasCause(cfg, j, k);
  }
}
