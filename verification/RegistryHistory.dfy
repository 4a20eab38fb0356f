/**
Clubs, officers, attestations and members, seen through the registry's history only.

Each journal entry holds what a committed call did, who called it and when. `MemberRegistered` stands for the
pallet's `MemberRegistered` event and, when it names an attestation, for the `AttestationUsed` event after it.
*/
module RegistryHistory {
  import opened Common

  type RoleId = u8
  type AttestationId = u64

  datatype MemberStatus = Active | Suspended | Removed

  datatype MemberInfo = MemberInfo(
    clubs: seq<ClubId>,
    roles: seq<RoleId>,
    joinedAt: Moment,
    status: MemberStatus,
    metadata: Option<Hash>)

  datatype Attestation = Attestation(
    subject: AccountId,
    club: ClubId,
    attestor: AccountId,
    createdAt: Moment,
    expiresAt: Option<Moment>,
    used: bool,
    metadata: Option<Hash>)

  /** What a club is created with and never changes. */
  datatype Charter = Charter(name: Bytes, metadata: Option<Hash>)

  datatype Config = Config(rootClubAdmin: Origin -> bool)

  datatype Error =
    | BadOrigin | ClubNotFound | AlreadyMember | NotClubAdmin | MemberNotFound | Overflow
    | AttestationNotFound | AttestationExpired | AttestationUsed | AttestorNotAuthorized | InvalidInput

  datatype Verdict = Ok | Err(error: Error)

  datatype Note =
    | ClubCreated(club: ClubId, admin: AccountId, charter: Charter)
    | OfficerAdded(club: ClubId, officer: AccountId)
    | OfficerRemoved(club: ClubId, officer: AccountId)
    | AttestationCreated(id: AttestationId, attestation: Attestation)
    | AttestationRevoked(id: AttestationId)
    | MemberRegistered(who: AccountId, club: ClubId, joinedAt: Moment, via: Option<AttestationId>)
    | MemberRemoved(who: AccountId, club: ClubId)
    | RoleAssigned(who: AccountId, role: RoleId)

  datatype Entry = Entry(caller: Origin, now: Moment, note: Note)

  type Journal = seq<Entry>

  const MAX_OFFICERS := 32
  const MAX_ROLES := 8

  // ---------------------------------------------------------------------------------------------------
  // What the journal says

  function Admins(j: Journal): map<ClubId, AccountId> {
    if j == [] then map[] else
      match Last(j).note
      case ClubCreated(club, admin, _) => Admins(Front(j))[club := admin]
      case _ => Admins(Front(j))
  }

  function Charters(j: Journal): map<ClubId, Charter> {
    if j == [] then map[] else
      match Last(j).note
      case ClubCreated(club, _, charter) => Charters(Front(j))[club := charter]
      case _ => Charters(Front(j))
  }

  function NextClubId(j: Journal): ClubId {
    if j == [] then 0
    else if Last(j).note.ClubCreated? then SatAdd32(NextClubId(Front(j)), 1)
    else NextClubId(Front(j))
  }

  /** A club's officers, with repetitions; a removal takes one away if there is one. */
  function OfficersOf(j: Journal, club: ClubId): multiset<AccountId> {
    if j == [] then multiset{} else
      var m := OfficersOf(Front(j), club);
      match Last(j).note
      case ClubCreated(c, _, _) => if c == club then multiset{} else m
      case OfficerAdded(c, o) => if c == club then m + multiset{o} else m
      case OfficerRemoved(c, o) => if c == club then m - multiset{o} else m
      case _ => m
  }

  /** The club's admin, or an account that was made officer more often than it was removed. */
  predicate Authorised(j: Journal, club: ClubId, who: AccountId) {
    club in Admins(j) && (who == Admins(j)[club] || who in OfficersOf(j, club))
  }

  function Attestations(j: Journal): map<AttestationId, Attestation> {
    if j == [] then map[] else
      var m := Attestations(Front(j));
      match Last(j).note
      case AttestationCreated(id, att) => m[id := att]
      case AttestationRevoked(id) => m - {id}
      case MemberRegistered(_, _, _, Some(id)) => if id in m then m[id := m[id].(used := true)] else m
      case _ => m
  }

  function NextAttestationId(j: Journal): AttestationId {
    if j == [] then 0
    else if Last(j).note.AttestationCreated? then SatAdd64(NextAttestationId(Front(j)), 1)
    else NextAttestationId(Front(j))
  }

  function Members(j: Journal): map<AccountId, MemberInfo> {
    if j == [] then map[] else
      var m := Members(Front(j));
      match Last(j).note
      case MemberRegistered(who, club, joinedAt, _) => m[who := MemberInfo([club], [], joinedAt, Active, None)]
      case MemberRemoved(who, _) => if who in m then m[who := m[who].(status := Removed)] else m
      case RoleAssigned(who, role) => if who in m then m[who := m[who].(roles := m[who].roles + [role])] else m
      case _ => m
  }

  /** The cached member count of a club, raised and lowered with saturation. */
  function CachedCount(j: Journal, club: ClubId): u32 {
    if j == [] then 0 else
      var n := CachedCount(Front(j), club);
      match Last(j).note
      case ClubCreated(c, _, _) => if c == club then 0 else n
      case MemberRegistered(_, c, _, _) => if c == club then SatAdd32(n, 1) else n
      case MemberRemoved(_, c) => if c == club then SatSub32(n, 1) else n
      case _ => n
  }

  // ---------------------------------------------------------------------------------------------------
  // Verdicts

  function AdminVerdict(j: Journal, origin: Origin, club: ClubId): Verdict {
    if !origin.Signed? then Err(BadOrigin)
    else if club !in Admins(j) then Err(ClubNotFound)
    else if Admins(j)[club] != origin.who then Err(NotClubAdmin)
    else Ok
  }

  function AddOfficerVerdict(j: Journal, origin: Origin, club: ClubId): Verdict {
    if AdminVerdict(j, origin, club) != Ok then AdminVerdict(j, origin, club)
    else if |OfficersOf(j, club)| >= MAX_OFFICERS then Err(Overflow)
    else Ok
  }

  function AttestVerdict(j: Journal, origin: Origin, club: ClubId): Verdict {
    if !origin.Signed? then Err(BadOrigin)
    else if club !in Admins(j) then Err(ClubNotFound)
    else if !Authorised(j, club, origin.who) then Err(AttestorNotAuthorized)
    else Ok
  }

  function RegisterVerdict(j: Journal, now: Moment, origin: Origin, id: AttestationId): Verdict {
    if !origin.Signed? then Err(BadOrigin)
    else if id !in Attestations(j) then Err(AttestationNotFound)
    else
      var att := Attestations(j)[id];
      if att.used then Err(AttestationUsed)
      else if att.subject != origin.who then Err(InvalidInput)
      else if att.expiresAt.Some? && now > att.expiresAt.value then Err(AttestationExpired)
      else if att.club !in Admins(j) then Err(ClubNotFound)
      else if !Authorised(j, att.club, att.attestor) then Err(AttestorNotAuthorized)
      else if origin.who in Members(j) then Err(AlreadyMember)
      else Ok
  }

  function AddMemberVerdict(j: Journal, origin: Origin, subject: AccountId, club: ClubId): Verdict {
    if AdminVerdict(j, origin, club) != Ok then AdminVerdict(j, origin, club)
    else if subject in Members(j) then Err(AlreadyMember)
    else Ok
  }

  function RemoveMemberVerdict(j: Journal, origin: Origin, subject: AccountId, club: ClubId): Verdict {
    if AdminVerdict(j, origin, club) != Ok then AdminVerdict(j, origin, club)
    else if subject !in Members(j) then Err(MemberNotFound)
    else Ok
  }

  function SetRoleVerdict(cfg: Config, j: Journal, origin: Origin, subject: AccountId): Verdict {
    if !cfg.rootClubAdmin(origin) then Err(BadOrigin)
    else if subject !in Members(j) then Err(MemberNotFound)
    else if |Members(j)[subject].roles| >= MAX_ROLES then Err(Overflow)
    else Ok
  }

  function RevokeVerdict(j: Journal, origin: Origin, id: AttestationId): Verdict {
    if !origin.Signed? then Err(BadOrigin)
    else if id !in Attestations(j) then Err(AttestationNotFound)
    else
      var att := Attestations(j)[id];
      if att.club !in Admins(j) then Err(ClubNotFound)
      else if origin.who != att.attestor && origin.who != Admins(j)[att.club] then Err(NotClubAdmin)
      else Ok
  }

  // ---------------------------------------------------------------------------------------------------
  // Histories

  ghost predicate Admitted(cfg: Config, j: Journal, e: Entry) {
    && (j != [] ==> Last(j).now <= e.now)
    && match e.note
       case ClubCreated(club, _, _) => cfg.rootClubAdmin(e.caller) && club == NextClubId(j)
       case OfficerAdded(club, _) => AddOfficerVerdict(j, e.caller, club) == Ok
       case OfficerRemoved(club, _) => AdminVerdict(j, e.caller, club) == Ok
       case AttestationCreated(id, att) =>
         && id == NextAttestationId(j)
         && AttestVerdict(j, e.caller, att.club) == Ok
         && att.attestor == e.caller.who && att.createdAt == e.now && !att.used
       case AttestationRevoked(id) => RevokeVerdict(j, e.caller, id) == Ok
       case MemberRegistered(who, club, joinedAt, None) =>
         AddMemberVerdict(j, e.caller, who, club) == Ok && joinedAt == e.now
       case MemberRegistered(who, club, joinedAt, Some(id)) =>
         && e.caller == Signed(who)
         && RegisterVerdict(j, e.now, e.caller, id) == Ok
         && club == Attestations(j)[id].club && joinedAt == Attestations(j)[id].createdAt
       case MemberRemoved(who, club) => RemoveMemberVerdict(j, e.caller, who, club) == Ok
       case RoleAssigned(who, _) => SetRoleVerdict(cfg, j, e.caller, who) == Ok
  }

  ghost predicate History(cfg: Config, j: Journal) {
    j == [] || (History(cfg, Front(j)) && Admitted(cfg, Front(j), Last(j)))
  }
}
