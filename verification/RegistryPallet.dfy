/**
The member registry as the pallet runs it: storage maps updated in place, officer lists that are searched and
`swap_remove`d, and a cached member count per club. Each call returns what the journal alone determines.
*/
module RegistryPallet {
  import opened Common
  import opened RegistryHistory
  import opened RegistryTheorems
  import opened RegistryCounts

  datatype ClubInfo = ClubInfo(
    name: Bytes,
    admin: AccountId,
    officers: seq<AccountId>,
    membersCount: u32,
    metadata: Option<Hash>)

  type Clubs = map<ClubId, ClubInfo>

  ghost predicate ClubMatches(info: ClubInfo, j: Journal, club: ClubId) {
    && club in Admins(j)
    && info.admin == Admins(j)[club]
    && club in Charters(j) && Charter(info.name, info.metadata) == Charters(j)[club]
    && multiset(info.officers) == OfficersOf(j, club)
    && info.membersCount == CachedCount(j, club)
  }

  ghost predicate ClubsMatch(clubs: Clubs, j: Journal) {
    && clubs.Keys == Admins(j).Keys
    && forall club {:trigger ClubMatches(clubs[club], j, club)} :: club in clubs ==> ClubMatches(clubs[club], j, club)
  }

  /** The club that a note is about; other clubs keep what the journal says of them. */
  predicate IsAbout(note: Note, club: ClubId) {
    match note
    case ClubCreated(c, _, _) => c == club
    case OfficerAdded(c, _) => c == club
    case OfficerRemoved(c, _) => c == club
    case MemberRegistered(_, c, _, _) => c == club
    case MemberRemoved(_, c) => c == club
    case _ => false
  }

  /** What a note leaves alone. */
  lemma NoteIsLocal(j: Journal, e: Entry)
    ensures !e.note.ClubCreated? ==> NextClubId(j + [e]) == NextClubId(j)
    ensures !e.note.AttestationCreated? ==> NextAttestationId(j + [e]) == NextAttestationId(j)
    ensures !e.note.MemberRegistered? && !e.note.MemberRemoved? && !e.note.RoleAssigned? ==>
              Members(j + [e]) == Members(j)
    ensures !e.note.AttestationCreated? && !e.note.AttestationRevoked? && !e.note.MemberRegistered? ==>
              Attestations(j + [e]) == Attestations(j)
  {
    assert Front(j + [e]) == j;
  }

  lemma ClubsMatchAfterUpdate(clubs: Clubs, j: Journal, e: Entry, club: ClubId, info: ClubInfo)
    requires ClubsMatch(clubs, j) && IsAbout(e.note, club)
    requires ClubMatches(info, j + [e], club)
    ensures ClubsMatch(clubs[club := info], j + [e])
  {
    assert Front(j + [e]) == j;
    forall c | c in clubs && c != club ensures ClubMatches(clubs[c], j + [e], c) {
      assert ClubMatches(clubs[c], j, c);
    }
  }

  lemma ClubsMatchOtherwise(clubs: Clubs, j: Journal, e: Entry)
    requires ClubsMatch(clubs, j)
    requires e.note.AttestationCreated? || e.note.AttestationRevoked? || e.note.RoleAssigned?
    ensures ClubsMatch(clubs, j + [e])
  {
    assert Front(j + [e]) == j;
    forall c | c in clubs ensures ClubMatches(clubs[c], j + [e], c) {
      assert ClubMatches(clubs[c], j, c);
    }
  }

  lemma ClubsMatchAfterAdd(clubs: Clubs, j: Journal, e: Entry)
    requires ClubsMatch(clubs, j) && e.note.OfficerAdded? && e.note.club in clubs
    ensures var c := clubs[e.note.club];
            ClubsMatch(clubs[e.note.club := c.(officers := c.officers + [e.note.officer])], j + [e])
  {
    var c := clubs[e.note.club];
    assert Front(j + [e]) == j;
    assert ClubMatches(c, j, e.note.club);
    assert multiset(c.officers + [e.note.officer]) == multiset(c.officers) + multiset{e.note.officer};
    ClubsMatchAfterUpdate(clubs, j, e, e.note.club, c.(officers := c.officers + [e.note.officer]));
  }

  lemma ClubsMatchAfterRemove(clubs: Clubs, j: Journal, e: Entry, officers: seq<AccountId>)
    requires ClubsMatch(clubs, j) && e.note.OfficerRemoved? && e.note.club in clubs
    requires multiset(officers) == multiset(clubs[e.note.club].officers) - multiset{e.note.officer}
    ensures ClubsMatch(clubs[e.note.club := clubs[e.note.club].(officers := officers)], j + [e])
  {
    assert Front(j + [e]) == j;
    assert ClubMatches(clubs[e.note.club], j, e.note.club);
    ClubsMatchAfterUpdate(clubs, j, e, e.note.club, clubs[e.note.club].(officers := officers));
  }

  lemma ClubsMatchAfterCount(clubs: Clubs, j: Journal, e: Entry, count: u32)
    requires ClubsMatch(clubs, j) && (e.note.MemberRegistered? || e.note.MemberRemoved?) && e.note.club in clubs
    requires var n := clubs[e.note.club].membersCount;
             count == if e.note.MemberRegistered? then SatAdd32(n, 1) else SatSub32(n, 1)
    ensures ClubsMatch(clubs[e.note.club := clubs[e.note.club].(membersCount := count)], j + [e])
  {
    assert Front(j + [e]) == j;
    assert ClubMatches(clubs[e.note.club], j, e.note.club);
    ClubsMatchAfterUpdate(clubs, j, e, e.note.club, clubs[e.note.club].(membersCount := count));
  }

  /** The first position of an account in an officer list. */
  method Position(officers: seq<AccountId>, who: AccountId) returns (pos: Option<nat>)
    ensures pos.None? <==> who !in officers
    ensures pos.Some? ==> pos.value < |officers| && officers[pos.value] == who && who !in officers[..pos.value]
  {
    for i := 0 to |officers|
      invariant who !in officers[..i]
    {
      if officers[i] == who {
        return Some(i);
      }
    }
    return None;
  }

  /** Removes an element by moving the last one into its place. */
  function SwapRemove(s: seq<AccountId>, pos: nat): seq<AccountId>
    requires pos < |s|
  {
    Front(s[pos := Last(s)])
  }

  lemma SwapRemoveTakesOne(s: seq<AccountId>, pos: nat)
    requires pos < |s|
    ensures multiset(SwapRemove(s, pos)) == multiset(s) - multiset{s[pos]}
  {
    var last := Last(s);
    if pos == |s| - 1 {
      assert SwapRemove(s, pos) == Front(s);
      assert s == Front(s) + [last];
    } else {
      var before, between := s[..pos], s[pos + 1..|s| - 1];
      assert s == before + [s[pos]] + between + [last];
      assert SwapRemove(s, pos) == before + [last] + between;
    }
  }

  class Registry {
    const cfg: Config
    var members: map<AccountId, MemberInfo>
    var clubs: Clubs
    var nextClubId: ClubId
    var attestations: map<AttestationId, Attestation>
    var nextAttestationId: AttestationId
    var now: Moment
    ghost var journal: Journal

    ghost predicate Valid()
      reads this
    {
      && History(cfg, journal)
      && (journal != [] ==> Last(journal).now <= now)
      && ClubsMatch(clubs, journal)
      && members == Members(journal)
      && attestations == Attestations(journal)
      && nextClubId == NextClubId(journal)
      && nextAttestationId == NextAttestationId(journal)
    }

    /** A call that succeeds appends its note to the journal; one that fails changes nothing. */
    twostate predicate Records(r: Verdict, caller: Origin, note: Note)
      reads this
    {
      if r == Ok then now == old(now) && journal == old(journal) + [Entry(caller, now, note)] else unchanged(this)
    }

    constructor (cfg: Config)
      ensures Valid() && this.cfg == cfg && journal == [] && now == 0
    {
      this.cfg := cfg;
      members, clubs, attestations := map[], map[], map[];
      nextClubId, nextAttestationId, now := 0, 0, 0;
      journal := [];
    }

    /** Time passes and never runs backwards. */
    method Advance(millis: nat)
      requires Valid()
      modifies this`now
      ensures Valid() && now == Min(old(now) + millis, U64_MAX)
    {
      now := Min(now + millis, U64_MAX);
    }

    /** The stored count of a club against the stored member records. */
    lemma StoredCounts(club: ClubId)
      requires Valid() && club in clubs
      ensures var records := set who | who in members && members[who].clubs == [club];
              && clubs[club].membersCount <= |records|
              && (club < U32_MAX ==>
                    Min(|records|, U32_MAX) - RemovalsNaming(journal, club) <= clubs[club].membersCount)
    {
      assert ClubMatches(clubs[club], journal, club);
      assert (set who | who in members && members[who].clubs == [club]) == RecordsIn(journal, club);
      CountIsAtMostRecords(cfg, journal, club);
      if club < U32_MAX {
        CountIsAtLeastRemaining(cfg, journal, club);
      }
    }

    method CreateClub(origin: Origin, name: Bytes, admin: AccountId, metadata: Option<Hash>) returns (r: Verdict)
      requires Valid()
      modifies this
      ensures Valid() && r == (if cfg.rootClubAdmin(origin) then Ok else Err(BadOrigin))
      ensures Records(r, origin, ClubCreated(NextClubId(old(journal)), admin, Charter(name, metadata)))
    {
      if !cfg.rootClubAdmin(origin) {
        return Err(BadOrigin);
      }
      var id := nextClubId;
      var club := ClubInfo(name, admin, [], 0, metadata);
      ghost var e := Entry(origin, now, ClubCreated(id, admin, Charter(name, metadata)));
      assert Admitted(cfg, journal, e);
      HistoryGoesOn(cfg, journal, e);
      NoteIsLocal(journal, e);
      ClubsMatchAfterUpdate(clubs, journal, e, id, club);
      clubs := clubs[id := club];
      nextClubId := SatAdd32(id, 1);
      journal := journal + [e];
      return Ok;
    }

    /** The signer must be the admin of an existing club. */
    method EnsureClubAdmin(origin: Origin, club: ClubId) returns (r: Verdict)
      requires Valid()
      ensures r == AdminVerdict(journal, origin, club)
    {
      if !origin.Signed? {
        return Err(BadOrigin);
      }
      if club !in clubs {
        return Err(ClubNotFound);
      }
      assert ClubMatches(clubs[club], journal, club);
      if origin.who != clubs[club].admin {
        return Err(NotClubAdmin);
      }
      return Ok;
    }

    method AddOfficer(origin: Origin, club: ClubId, officer: AccountId) returns (r: Verdict)
      requires Valid()
      modifies this
      ensures Valid() && r == AddOfficerVerdict(old(journal), origin, club)
      ensures Records(r, origin, OfficerAdded(club, officer))
    {
      r := EnsureClubAdmin(origin, club);
      if r != Ok {
        return;
      }
      var c := clubs[club];
      assert ClubMatches(c, journal, club);
      if |c.officers| >= MAX_OFFICERS {
        return Err(Overflow);
      }
      c := c.(officers := c.officers + [officer]);
      ghost var e := Entry(origin, now, OfficerAdded(club, officer));
      assert Admitted(cfg, journal, e);
      HistoryGoesOn(cfg, journal, e);
      NoteIsLocal(journal, e);
      ClubsMatchAfterAdd(clubs, journal, e);
      clubs := clubs[club := c];
      journal := journal + [e];
      return Ok;
    }

    method RemoveOfficer(origin: Origin, club: ClubId, officer: AccountId) returns (r: Verdict)
      requires Valid()
      modifies this
      ensures Valid() && r == AdminVerdict(old(journal), origin, club)
      ensures Records(r, origin, OfficerRemoved(club, officer))
    {
      r := EnsureClubAdmin(origin, club);
      if r != Ok {
        return;
      }
      var c := clubs[club];
      var pos := Position(c.officers, officer);
      if pos.Some? {
        SwapRemoveTakesOne(c.officers, pos.value);
        c := c.(officers := SwapRemove(c.officers, pos.value));
      } else {
        assert officer !in multiset(c.officers);
      }
      ghost var e := Entry(origin, now, OfficerRemoved(club, officer));
      assert Admitted(cfg, journal, e);
      HistoryGoesOn(cfg, journal, e);
      NoteIsLocal(journal, e);
      ClubsMatchAfterRemove(clubs, journal, e, c.officers);
      clubs := clubs[club := c];
      journal := journal + [e];
      return Ok;
    }

    /** Holds exactly for the admin and for accounts with an officer entry left. */
    method IsOfficerOrAdmin(acct: AccountId, club: ClubId) returns (r: Option<bool>)
      requires Valid()
      ensures r == if club in Admins(journal) then Some(Authorised(journal, club, acct)) else None
    {
      if club !in clubs {
        return None;
      }
      var info := clubs[club];
      assert ClubMatches(info, journal, club);
      var pos := Position(info.officers, acct);
      assert acct in info.officers <==> acct in multiset(info.officers);
      return Some(acct == info.admin || pos.Some?);
    }

    method CreateAttestation(origin: Origin, subject: AccountId, club: ClubId, expiresAt: Option<Moment>,
                             metadata: Option<Hash>)
      returns (r: Verdict)
      requires Valid()
      modifies this
      ensures Valid() && r == AttestVerdict(old(journal), origin, club)
      ensures r != Ok ==> unchanged(this)
      ensures r == Ok ==>
                Records(r, origin, AttestationCreated(NextAttestationId(old(journal)),
                                     Attestation(subject, club, origin.who, now, expiresAt, false, metadata)))
    {
      if !origin.Signed? {
        return Err(BadOrigin);
      }
      var allowed := IsOfficerOrAdmin(origin.who, club);
      if allowed.None? {
        return Err(ClubNotFound);
      }
      if !allowed.value {
        return Err(AttestorNotAuthorized);
      }
      var id := nextAttestationId;
      var att := Attestation(subject, club, origin.who, now, expiresAt, false, metadata);
      ghost var e := Entry(origin, now, AttestationCreated(id, att));
      assert Admitted(cfg, journal, e);
      HistoryGoesOn(cfg, journal, e);
      NoteIsLocal(journal, e);
      ClubsMatchOtherwise(clubs, journal, e);
      attestations := attestations[id := att];
      nextAttestationId := SatAdd64(id, 1);
      journal := journal + [e];
      return Ok;
    }

    /** Raises the club's cached count, if the club is there. */
    method CountMember(club: ClubId)
      modifies this`clubs
      ensures club !in old(clubs) ==> clubs == old(clubs)
      ensures club in old(clubs) ==>
                var c := old(clubs)[club];
                clubs == old(clubs)[club := c.(membersCount := SatAdd32(c.membersCount, 1))]
    {
      if club in clubs {
        var c := clubs[club];
        clubs := clubs[club := c.(membersCount := SatAdd32(c.membersCount, 1))];
      }
    }

    /** The checks of `register_member`, in its order. */
    method EnsureMayRegister(origin: Origin, attestationId: AttestationId) returns (r: Verdict)
      requires Valid()
      ensures r == RegisterVerdict(journal, now, origin, attestationId)
    {
      if !origin.Signed? {
        return Err(BadOrigin);
      }
      if attestationId !in attestations {
        return Err(AttestationNotFound);
      }
      var att := attestations[attestationId];
      if att.used {
        return Err(AttestationUsed);
      }
      if att.subject != origin.who {
        return Err(InvalidInput);
      }
      if att.expiresAt.Some? && !(now <= att.expiresAt.value) {
        return Err(AttestationExpired);
      }
      var allowed := IsOfficerOrAdmin(att.attestor, att.club);
      if allowed.None? {
        return Err(ClubNotFound);
      }
      if !allowed.value {
        return Err(AttestorNotAuthorized);
      }
      if origin.who in members {
        return Err(AlreadyMember);
      }
      return Ok;
    }

    method RegisterMember(origin: Origin, attestationId: AttestationId) returns (r: Verdict)
      requires Valid()
      modifies this
      ensures Valid() && now == old(now) && r == RegisterVerdict(old(journal), now, origin, attestationId)
      ensures r != Ok ==> unchanged(this)
      ensures r == Ok ==>
                var att := Attestations(old(journal))[attestationId];
                journal == old(journal)
                  + [Entry(origin, now, MemberRegistered(origin.who, att.club, att.createdAt, Some(attestationId)))]
    {
      r := EnsureMayRegister(origin, attestationId);
      if r != Ok {
        return;
      }
      var who := origin.who;
      var att := attestations[attestationId];
      var member := MemberInfo([att.club], [], att.createdAt, Active, None);
      ghost var e := Entry(origin, now, MemberRegistered(who, att.club, att.createdAt, Some(attestationId)));
      assert Admitted(cfg, journal, e);
      HistoryGoesOn(cfg, journal, e);
      NoteIsLocal(journal, e);
      ClubsMatchAfterCount(clubs, journal, e, SatAdd32(clubs[att.club].membersCount, 1));
      members := members[who := member];
      CountMember(att.club);
      att := att.(used := true);
      attestations := attestations[attestationId := att];
      journal := journal + [e];
    }

    method AddMemberAdmin(origin: Origin, subject: AccountId, club: ClubId) returns (r: Verdict)
      requires Valid()
      modifies this
      ensures Valid() && r == AddMemberVerdict(old(journal), origin, subject, club)
      ensures Records(r, origin, MemberRegistered(subject, club, now, None))
    {
      r := EnsureClubAdmin(origin, club);
      if r != Ok {
        return;
      }
      if subject in members {
        return Err(AlreadyMember);
      }
      var member := MemberInfo([club], [], now, Active, None);
      ghost var e := Entry(origin, now, MemberRegistered(subject, club, now, None));
      assert Admitted(cfg, journal, e);
      HistoryGoesOn(cfg, journal, e);
      NoteIsLocal(journal, e);
      ClubsMatchAfterCount(clubs, journal, e, SatAdd32(clubs[club].membersCount, 1));
      members := members[subject := member];
      CountMember(club);
      journal := journal + [e];
      return Ok;
    }

    /** Marks the record removed, whatever its club and status, and lowers the named club's count. */
    method RemoveMemberAdmin(origin: Origin, subject: AccountId, club: ClubId) returns (r: Verdict)
      requires Valid()
      modifies this
      ensures Valid() && r == RemoveMemberVerdict(old(journal), origin, subject, club)
      ensures Records(r, origin, MemberRemoved(subject, club))
    {
      r := EnsureClubAdmin(origin, club);
      if r != Ok {
        return;
      }
      var c := clubs[club];
      if subject !in members {
        return Err(MemberNotFound);
      }
      c := c.(membersCount := SatSub32(c.membersCount, 1));
      ghost var e := Entry(origin, now, MemberRemoved(subject, club));
      assert Admitted(cfg, journal, e);
      HistoryGoesOn(cfg, journal, e);
      NoteIsLocal(journal, e);
      ClubsMatchAfterCount(clubs, journal, e, c.membersCount);
      members := members[subject := members[subject].(status := Removed)];
      clubs := clubs[club := c];
      journal := journal + [e];
      return Ok;
    }

    method SetRole(origin: Origin, subject: AccountId, role: RoleId) returns (r: Verdict)
      requires Valid()
      modifies this
      ensures Valid() && r == SetRoleVerdict(cfg, old(journal), origin, subject)
      ensures Records(r, origin, RoleAssigned(subject, role))
    {
      if !cfg.rootClubAdmin(origin) {
        return Err(BadOrigin);
      }
      if subject !in members {
        return Err(MemberNotFound);
      }
      var m := members[subject];
      if |m.roles| >= MAX_ROLES {
        return Err(Overflow);
      }
      ghost var e := Entry(origin, now, RoleAssigned(subject, role));
      assert Admitted(cfg, journal, e);
      HistoryGoesOn(cfg, journal, e);
      NoteIsLocal(journal, e);
      ClubsMatchOtherwise(clubs, journal, e);
      members := members[subject := m.(roles := m.roles + [role])];
      journal := journal + [e];
      return Ok;
    }

    method RevokeAttestation(origin: Origin, attestationId: AttestationId) returns (r: Verdict)
      requires Valid()
      modifies this
      ensures Valid() && r == RevokeVerdict(old(journal), origin, attestationId)
      ensures Records(r, origin, AttestationRevoked(attestationId))
    {
      if !origin.Signed? {
        return Err(BadOrigin);
      }
      if attestationId !in attestations {
        return Err(AttestationNotFound);
      }
      var att := attestations[attestationId];
      if att.club !in clubs {
        return Err(ClubNotFound);
      }
      assert ClubMatches(clubs[att.club], journal, att.club);
      if origin.who != att.attestor && origin.who != clubs[att.club].admin {
        return Err(NotClubAdmin);
      }
      ghost var e := Entry(origin, now, AttestationRevoked(attestationId));
      assert Admitted(cfg, journal, e);
      HistoryGoesOn(cfg, journal, e);
      NoteIsLocal(journal, e);
      ClubsMatchOtherwise(clubs, journal, e);
      attestations := attestations - {attestationId};
      journal := journal + [e];
      return Ok;
    }
  
    /** Makes the call that an admitted entry stands for. */
    method Follow(e: Entry)
      requires Valid() && Admitted(cfg, journal, e) && now <= e.now
      modifies this
      ensures Valid() && now == e.now && journal == old(journal) + [e]
    {
      Advance(e.now - now);
      var r: Verdict;
      match e.note {
        case ClubCreated(_, admin, charter) => r := CreateClub(e.caller, charter.name, admin, charter.metadata);
        case OfficerAdded(club, officer) => r := AddOfficer(e.caller, club, officer);
        case OfficerRemoved(club, officer) => r := RemoveOfficer(e.caller, club, officer);
        case AttestationCreated(_, att) =>
          r := CreateAttestation(e.caller, att.subject, att.club, att.expiresAt, att.metadata);
        case AttestationRevoked(id) => r := RevokeAttestation(e.caller, id);
        case MemberRegistered(_, _, _, Some(id)) => r := RegisterMember(e.caller, id);
        case MemberRegistered(who, club, _, None) => r := AddMemberAdmin(e.caller, who, club);
        case MemberRemoved(who, club) => r := RemoveMemberAdmin(e.caller, who, club);
        case RoleAssigned(who, role) => r := SetRole(e.caller, who, role);
      }
    }
  }

  /** Every history is a run of the registry: the calls it records, made in order, lead to it. */
  method Replay(cfg: Config, j: Journal) returns (registry: Registry)
    requires History(cfg, j)
    ensures fresh(registry) && registry.cfg == cfg && registry.Valid() && registry.journal == j
  {
    registry := new Registry(cfg);
    for k := 0 to |j|
      invariant fresh(registry) && registry.cfg == cfg && registry.Valid() && registry.journal == j[..k]
      invariant registry.now == if k == 0 then 0 else j[k - 1].now
    {
      HistoryPrefix(cfg, j, k);
      assert k > 0 ==> Last(j[..k]) == j[k - 1];
      registry.Follow(j[k]);
    }
    assert j[..|j|] == j;
  }
}
