/**
The laws of the registry: who may do what, read from the notes by position.

`RegistryHistory` replays the journal into clubs, officers, members and attestations and lets the verdicts look
there. Here the same answers are given from the notes themselves.
*/
module RegistryLaws {
  import opened Common
  import opened Readings
  import opened RegistryHistory
  import opened RegistryTheorems

  // ---------------------------------------------------------------------------------------------------
  // Clubs and officers

  function Founds(club: ClubId): Entry -> bool {
    (e: Entry) => e.note.ClubCreated? && e.note.club == club
  }

  function Adds(club: ClubId, who: AccountId): Entry -> bool {
    (e: Entry) => e.note == OfficerAdded(club, who)
  }

  function Takes(club: ClubId, who: AccountId): Entry -> bool {
    (e: Entry) => e.note == OfficerRemoved(club, who)
  }

  /** The admin named by the latest note that created the club. */
  ghost predicate IsAdmin(j: Journal, club: ClubId, who: AccountId) {
    exists k: nat :: Latest(j, Founds(club), k) && j[k].note.admin == who
  }

  /** How much more often an account was made officer than removed, from position `k` on. */
  function Surplus(j: Journal, k: nat, club: ClubId, who: AccountId): int
    requires k <= |j|
  {
    Count(j[k..], Adds(club, who)) - Count(j[k..], Takes(club, who))
  }

  /** The club was not created at or after position `k`. */
  ghost predicate Stands(j: Journal, k: nat, club: ClubId) {
    k <= |j| && !Ever(j[k..], Founds(club))
  }

  /** Since some moment after the club's creation, the account was made officer more often than removed. */
  ghost predicate IsOfficer(j: Journal, club: ClubId, who: AccountId) {
    exists k: nat :: Stands(j, k, club) && Surplus(j, k, club, who) > 0
  }

  ghost predicate MayAttest(j: Journal, club: ClubId, who: AccountId) {
    Ever(j, Founds(club)) && (IsAdmin(j, club, who) || IsOfficer(j, club, who))
  }

  /** The replayed clubs are those that were created, with the terms of the latest creation. */
  lemma {:induction false} ClubsAreFounded(j: Journal, club: ClubId)
    ensures club in Admins(j) <==> Ever(j, Founds(club))
    ensures Charters(j).Keys == Admins(j).Keys
    ensures forall k: nat :: Latest(j, Founds(club), k) ==>
              club in Admins(j) && Admins(j)[club] == j[k].note.admin && Charters(j)[club] == j[k].note.charter
  {
    if j == [] {
    } else {
      ClubsAreFounded(Front(j), club);
      EverStep(j, Founds(club));
      forall k: nat | Latest(j, Founds(club), k)
        ensures club in Admins(j) && Admins(j)[club] == j[k].note.admin && Charters(j)[club] == j[k].note.charter
      {
        LatestStep(j, Founds(club), k);
      }
    }
  }

  lemma AdminsAreRead(j: Journal, club: ClubId, who: AccountId)
    ensures IsAdmin(j, club, who) <==> club in Admins(j) && Admins(j)[club] == who
  {
    ClubsAreFounded(j, club);
    LatestExists(j, Founds(club));
  }

  lemma SurplusStep(j: Journal, k: nat, club: ClubId, who: AccountId)
    requires k < |j|
    ensures Surplus(j, k, club, who) == Surplus(Front(j), k, club, who)
              + (if Last(j).note == OfficerAdded(club, who) then 1
                 else if Last(j).note == OfficerRemoved(club, who) then -1 else 0)
    ensures Stands(j, k, club) <==> Stands(Front(j), k, club) && !Founds(club)(Last(j))
  {
    assert Front(j[k..]) == Front(j)[k..] && Last(j[k..]) == Last(j);
    EverStep(j[k..], Founds(club));
  }

  /** An account's officer entries are its largest surplus over all moments since the club's creation: a removal
      that finds no entry takes none, and counts for nothing later. */
  lemma {:induction false} OfficerEntries(j: Journal, club: ClubId, who: AccountId)
    ensures forall k: nat :: Stands(j, k, club) ==> Surplus(j, k, club, who) <= OfficersOf(j, club)[who]
    ensures exists k: nat :: Stands(j, k, club) && Surplus(j, k, club, who) == OfficersOf(j, club)[who]
  {
    assert Stands(j, |j|, club) && Surplus(j, |j|, club, who) == 0;
    if j == [] {
    } else {
      OfficerEntries(Front(j), club, who);
      forall k: nat | Stands(j, k, club) ensures Surplus(j, k, club, who) <= OfficersOf(j, club)[who] {
        if k < |j| {
          SurplusStep(j, k, club, who);
        }
      }
      if OfficersOf(j, club)[who] > 0 {
        var k: nat :| Stands(Front(j), k, club) && Surplus(Front(j), k, club, who) == OfficersOf(Front(j), club)[who];
        SurplusStep(j, k, club, who);
        assert Stands(j, k, club) && Surplus(j, k, club, who) == OfficersOf(j, club)[who];
      }
    }
  }

  /** Authority is what the notes give. */
  lemma AuthorisedExactlyWhen(j: Journal, club: ClubId, who: AccountId)
    ensures Authorised(j, club, who) <==> MayAttest(j, club, who)
  {
    AdminsAreRead(j, club, who);
    ClubsAreFounded(j, club);
    OfficerEntries(j, club, who);
  }

  lemma AdminLaw(j: Journal, origin: Origin, club: ClubId)
    ensures AdminVerdict(j, origin, club) ==
              if !origin.Signed? then Err(BadOrigin)
              else if !Ever(j, Founds(club)) then Err(ClubNotFound)
              else if !IsAdmin(j, club, origin.who) then Err(NotClubAdmin)
              else Ok
  {
    ClubsAreFounded(j, club);
    if origin.Signed? {
      AdminsAreRead(j, club, origin.who);
    }
  }

  /** Officers are added by the admin of the club while it has fewer than 32 entries. */
  lemma AddOfficerLaw(j: Journal, origin: Origin, club: ClubId)
    ensures AddOfficerVerdict(j, origin, club) ==
              if !origin.Signed? then Err(BadOrigin)
              else if !Ever(j, Founds(club)) then Err(ClubNotFound)
              else if !IsAdmin(j, club, origin.who) then Err(NotClubAdmin)
              else if |OfficersOf(j, club)| >= 32 then Err(Overflow)
              else Ok
  {
    AdminLaw(j, origin, club);
  }

  lemma AttestLaw(j: Journal, origin: Origin, club: ClubId)
    ensures AttestVerdict(j, origin, club) ==
              if !origin.Signed? then Err(BadOrigin)
              else if !Ever(j, Founds(club)) then Err(ClubNotFound)
              else if !MayAttest(j, club, origin.who) then Err(AttestorNotAuthorized)
              else Ok
  {
    ClubsAreFounded(j, club);
    if origin.Signed? {
      AuthorisedExactlyWhen(j, club, origin.who);
    }
  }

  /** Whoever has just been made officer may attest, however often it was removed before. */
  lemma NewOfficerMayAttest(cfg: Config, j: Journal, caller: Origin, now: Moment, club: ClubId, officer: AccountId)
    requires History(cfg, j) && Admitted(cfg, j, Entry(caller, now, OfficerAdded(club, officer)))
    ensures AttestVerdict(j + [Entry(caller, now, OfficerAdded(club, officer))], Signed(officer), club) == Ok
  {
    var e := Entry(caller, now, OfficerAdded(club, officer));
    var j' := j + [e];
    AttestLaw(j', Signed(officer), club);
    AddOfficerLaw(j, caller, club);
    assert Front(j') == j && Last(j') == e;
    EverStep(j', Founds(club));
    SurplusStep(j', |j|, club, officer);
    assert Surplus(j', |j|, club, officer) == 1 && Stands(j', |j|, club);
  }

  // ---------------------------------------------------------------------------------------------------
  // Members

  function Registers(who: AccountId): Entry -> bool {
    (e: Entry) => e.note.MemberRegistered? && e.note.who == who
  }

  function Dismisses(who: AccountId): Entry -> bool {
    (e: Entry) => e.note.MemberRemoved? && e.note.who == who
  }

  function GivesRole(who: AccountId): Entry -> bool {
    (e: Entry) => e.note.RoleAssigned? && e.note.who == who
  }

  function RolesGiven(j: Journal, who: AccountId): seq<RoleId> {
    if j == [] then []
    else RolesGiven(Front(j), who) + (if GivesRole(who)(Last(j)) then [Last(j).note.role] else [])
  }

  /** A member record is what the account's registration, removals and roles make it. */
  lemma {:induction false} MembersAreRegistered(cfg: Config, j: Journal, who: AccountId)
    requires History(cfg, j)
    ensures who in Members(j) <==> Ever(j, Registers(who))
    ensures who in Members(j) ==>
              && Members(j)[who].status == (if Ever(j, Dismisses(who)) then Removed else Active)
              && Members(j)[who].roles == RolesGiven(j, who) && Members(j)[who].metadata == None
    ensures who !in Members(j) ==> !Ever(j, Dismisses(who)) && RolesGiven(j, who) == []
    ensures |RolesGiven(j, who)| == Count(j, GivesRole(who))
  {
    if j == [] {
    } else {
      MembersAreRegistered(cfg, Front(j), who);
      EverStep(j, Registers(who));
      EverStep(j, Dismisses(who));
    }
  }

  lemma AddMemberLaw(cfg: Config, j: Journal, origin: Origin, subject: AccountId, club: ClubId)
    requires History(cfg, j)
    ensures AddMemberVerdict(j, origin, subject, club) ==
              if !origin.Signed? then Err(BadOrigin)
              else if !Ever(j, Founds(club)) then Err(ClubNotFound)
              else if !IsAdmin(j, club, origin.who) then Err(NotClubAdmin)
              else if Ever(j, Registers(subject)) then Err(AlreadyMember)
              else Ok
  {
    AdminLaw(j, origin, club);
    MembersAreRegistered(cfg, j, subject);
  }

  lemma RemoveMemberLaw(cfg: Config, j: Journal, origin: Origin, subject: AccountId, club: ClubId)
    requires History(cfg, j)
    ensures RemoveMemberVerdict(j, origin, subject, club) ==
              if !origin.Signed? then Err(BadOrigin)
              else if !Ever(j, Founds(club)) then Err(ClubNotFound)
              else if !IsAdmin(j, club, origin.who) then Err(NotClubAdmin)
              else if !Ever(j, Registers(subject)) then Err(MemberNotFound)
              else Ok
  {
    AdminLaw(j, origin, club);
    MembersAreRegistered(cfg, j, subject);
  }

  lemma SetRoleLaw(cfg: Config, j: Journal, origin: Origin, subject: AccountId)
    requires History(cfg, j)
    ensures SetRoleVerdict(cfg, j, origin, subject) ==
              if !cfg.rootClubAdmin(origin) then Err(BadOrigin)
              else if !Ever(j, Registers(subject)) then Err(MemberNotFound)
              else if Count(j, GivesRole(subject)) >= 8 then Err(Overflow)
              else Ok
  {
    MembersAreRegistered(cfg, j, subject);
  }

  // ---------------------------------------------------------------------------------------------------
  // Attestations

  /** The attestation of this id was made or revoked. */
  function Decides(id: AttestationId): Entry -> bool {
    (e: Entry) => (e.note.AttestationCreated? || e.note.AttestationRevoked?) && e.note.id == id
  }

  function Spends(id: AttestationId): Entry -> bool {
    (e: Entry) => e.note.MemberRegistered? && e.note.via == Some(id)
  }

  /** Entry `k` made the attestation, and it was not revoked or made anew since. */
  ghost predicate MadeAt(j: Journal, id: AttestationId, k: nat) {
    Latest(j, Decides(id), k) && j[k].note.AttestationCreated?
  }

  ghost predicate IsMade(j: Journal, id: AttestationId) {
    exists k: nat :: MadeAt(j, id, k)
  }

  /** The replayed attestations are those made and not revoked, used if a registration since names them. */
  lemma {:induction false} AttestationsAreMade(cfg: Config, j: Journal, id: AttestationId)
    requires History(cfg, j)
    ensures id in Attestations(j) <==> IsMade(j, id)
    ensures forall k: nat :: MadeAt(j, id, k) ==>
              && id in Attestations(j)
              && Attestations(j)[id] == j[k].note.attestation.(used := Since(j, Spends(id), k))
  {
    if j == [] {
    } else {
      AttestationsAreMade(cfg, Front(j), id);
      forall k: nat | MadeAt(j, id, k)
        ensures && id in Attestations(j)
                && Attestations(j)[id] == j[k].note.attestation.(used := Since(j, Spends(id), k))
      {
        LatestStep(j, Decides(id), k);
        if k < |j| - 1 {
          assert MadeAt(Front(j), id, k);
          SinceStep(j, Spends(id), k);
        }
      }
      if id in Attestations(j) {
        if Decides(id)(Last(j)) {
          LatestStep(j, Decides(id), |j| - 1);
          assert MadeAt(j, id, |j| - 1);
        } else {
          var k: nat :| MadeAt(Front(j), id, k);
          LatestStep(j, Decides(id), k);
          assert MadeAt(j, id, k);
        }
      }
    }
  }

  /** A registration succeeds exactly for the subject of an attestation that stands unused and unexpired and whose
      attestor may still attest, if the subject was never registered. */
  lemma RegisterLaw(cfg: Config, j: Journal, now: Moment, origin: Origin, id: AttestationId)
    requires History(cfg, j)
    ensures !origin.Signed? ==> RegisterVerdict(j, now, origin, id) == Err(BadOrigin)
    ensures origin.Signed? && !IsMade(j, id) ==> RegisterVerdict(j, now, origin, id) == Err(AttestationNotFound)
    ensures forall k: nat :: origin.Signed? && MadeAt(j, id, k) ==>
              var att := j[k].note.attestation;
              RegisterVerdict(j, now, origin, id) ==
                if Since(j, Spends(id), k) then Err(AttestationUsed)
                else if att.subject != origin.who then Err(InvalidInput)
                else if att.expiresAt.Some? && att.expiresAt.value < now then Err(AttestationExpired)
                else if !MayAttest(j, att.club, att.attestor) then Err(AttestorNotAuthorized)
                else if Ever(j, Registers(origin.who)) then Err(AlreadyMember)
                else Ok
  {
    AttestationsAreMade(cfg, j, id);
    LateClubNotFoundIsUnreachable(cfg, j, now, origin, id);
    if origin.Signed? {
      MembersAreRegistered(cfg, j, origin.who);
      if id in Attestations(j) {
        AuthorisedExactlyWhen(j, Attestations(j)[id].club, Attestations(j)[id].attestor);
      }
    }
  }

  /** An attestation that stands, used or not, is revoked by its attestor or the admin of its club. */
  lemma RevokeLaw(cfg: Config, j: Journal, origin: Origin, id: AttestationId)
    requires History(cfg, j)
    ensures !origin.Signed? ==> RevokeVerdict(j, origin, id) == Err(BadOrigin)
    ensures origin.Signed? && !IsMade(j, id) ==> RevokeVerdict(j, origin, id) == Err(AttestationNotFound)
    ensures forall k: nat :: origin.Signed? && MadeAt(j, id, k) ==>
              var att := j[k].note.attestation;
              RevokeVerdict(j, origin, id) ==
                if origin.who == att.attestor || IsAdmin(j, att.club, origin.who) then Ok else Err(NotClubAdmin)
  {
    AttestationsAreMade(cfg, j, id);
    LateClubNotFoundIsUnreachable(cfg, j, 0, origin, id);
    if origin.Signed? && id in Attestations(j) {
      AdminsAreRead(j, Attestations(j)[id].club, origin.who);
    }
  }

  // ---------------------------------------------------------------------------------------------------
  // Ids

  function Creates(): Entry -> bool {
    (e: Entry) => e.note.ClubCreated?
  }

  function Issues(): Entry -> bool {
    (e: Entry) => e.note.AttestationCreated?
  }

  /** The next ids count what was created, as far as their width allows. */
  lemma {:induction false} NextIdsCount(j: Journal)
    ensures NextClubId(j) == Min(Count(j, Creates()), U32_MAX)
    ensures NextAttestationId(j) == Min(Count(j, Issues()), U64_MAX)
  {
    if j == [] {
    } else {
      NextIdsCount(Front(j));
    }
  }

  // ---------------------------------------------------------------------------------------------------
  // Who did it

  /** Every note of a history was made by somebody who had the right to, at that moment. */
  ghost predicate Rightful(cfg: Config, j: Journal, e: Entry) {
    match e.note
    case ClubCreated(_, _, _) => cfg.rootClubAdmin(e.caller)
    case OfficerAdded(club, _) => e.caller.Signed? && IsAdmin(j, club, e.caller.who)
    case OfficerRemoved(club, _) => e.caller.Signed? && IsAdmin(j, club, e.caller.who)
    case AttestationCreated(_, att) => e.caller == Signed(att.attestor) && MayAttest(j, att.club, att.attestor)
    case AttestationRevoked(id) =>
      && e.caller.Signed?
      && exists k: nat :: MadeAt(j, id, k) && (e.caller.who == j[k].note.attestation.attestor
                                               || IsAdmin(j, j[k].note.attestation.club, e.caller.who))
    case MemberRegistered(who, club, _, None) => e.caller.Signed? && IsAdmin(j, club, e.caller.who)
    case MemberRegistered(who, club, _, Some(id)) =>
      && e.caller == Signed(who)
      && exists k: nat :: MadeAt(j, id, k) && j[k].note.attestation.subject == who
                          && j[k].note.attestation.club == club && !Since(j, Spends(id), k)
    case MemberRemoved(_, club) => e.caller.Signed? && IsAdmin(j, club, e.caller.who)
    case RoleAssigned(_, _) => cfg.rootClubAdmin(e.caller)
  }

  lemma EveryNoteIsRightful(cfg: Config, j: Journal, k: nat)
    requires History(cfg, j) && k < |j|
    ensures Rightful(cfg, j[..k], j[k])
  {
    HistoryPrefix(cfg, j, k);
    var before, e := j[..k], j[k];
    match e.note
    case OfficerAdded(club, _) => AddOfficerLaw(before, e.caller, club);
    case OfficerRemoved(club, _) => AdminLaw(before, e.caller, club);
    case AttestationCreated(_, att) => AttestLaw(before, e.caller, att.club);
    case AttestationRevoked(id) => RevokeLaw(cfg, before, e.caller, id);
    case MemberRegistered(who, club, _, None) => AddMemberLaw(cfg, before, e.caller, who, club);
    case MemberRegistered(_, _, _, Some(id)) =>
      RegisterLaw(cfg, before, e.now, e.caller, id);
      AttestationsAreMade(cfg, before, id);
    case MemberRemoved(who, club) => RemoveMemberLaw(cfg, before, e.caller, who, club);
    case _ =>
  }
}
