/** The cached `members_count` of a club against the member records. */
module RegistryCounts {
  import opened Common
  import opened RegistryHistory
  import opened RegistryTheorems

  function RecordsIn(j: Journal, club: ClubId): set<AccountId> {
    set who | who in Members(j) && Members(j)[who].clubs == [club]
  }

  function ActiveIn(j: Journal, club: ClubId): set<AccountId> {
    set who | who in Members(j) && Members(j)[who].clubs == [club] && Members(j)[who].status == Active
  }

  /** The removals that named this club, whoever was removed. */
  function RemovalsNaming(j: Journal, club: ClubId): nat {
    if j == [] then 0
    else RemovalsNaming(Front(j), club) + (if Last(j).note.MemberRemoved? && Last(j).note.club == club then 1 else 0)
  }

  lemma {:induction false} NoClubNoRecords(cfg: Config, j: Journal, club: ClubId)
    requires History(cfg, j) && club !in Admins(j)
    ensures RecordsIn(j, club) == {} && ActiveIn(j, club) == {}
  {
    ClubsAreNeverMissing(cfg, j);
  }

  /** A new registration adds one record to its club and to no other. */
  lemma RecordsGrow(cfg: Config, j: Journal, club: ClubId)
    requires History(cfg, j) && j != []
    ensures var e := Last(j).note;
            && (if e.MemberRegistered? && e.club == club
                then e.who !in RecordsIn(Front(j), club) && RecordsIn(j, club) == RecordsIn(Front(j), club) + {e.who}
                else RecordsIn(j, club) == RecordsIn(Front(j), club))
  {
  }

  /** The cached count never exceeds the records. */
  lemma {:induction false} CountIsAtMostRecords(cfg: Config, j: Journal, club: ClubId)
    requires History(cfg, j)
    ensures CachedCount(j, club) <= |RecordsIn(j, club)|
  {
    if j == [] {
    } else {
      CountIsAtMostRecords(cfg, Front(j), club);
      RecordsGrow(cfg, j, club);
    }
  }

  /** It is at least the records, as far as 32 bits count them, less the removals that named the club, for every
      club id but the last. */
  lemma {:induction false} CountIsAtLeastRemaining(cfg: Config, j: Journal, club: ClubId)
    requires History(cfg, j) && club < U32_MAX
    ensures Min(|RecordsIn(j, club)|, U32_MAX) - RemovalsNaming(j, club) <= CachedCount(j, club)
  {
    if j == [] {
    } else {
      CountIsAtLeastRemaining(cfg, Front(j), club);
      RecordsGrow(cfg, j, club);
      if Last(j).note.ClubCreated? && Last(j).note.club == club {
        ClubsAreBelowNext(cfg, Front(j));
        NoClubNoRecords(cfg, Front(j), club);
      }
    }
  }

  // ---------------------------------------------------------------------------------------------------
  // When does the cached count agree with the active members?

  /** The cached counts of all clubs but the one under the last id, which can be created again. */
  ghost predicate Agrees(j: Journal) {
    forall club: ClubId :: club < U32_MAX ==> CachedCount(j, club) == |ActiveIn(j, club)|
  }

  /** The count agreed all along the history. */
  ghost predicate AlwaysAgreed(j: Journal) {
    Agrees(j) && (j != [] ==> AlwaysAgreed(Front(j)))
  }

  /** A removal that a caller can see to be harmless: the subject is an active member of the named club, or
      it is not active (or only in the last club) and the named club is the last or counts zero already. */
  predicate CleanRemoval(j: Journal, who: AccountId, club: ClubId) {
    who in Members(j) &&
    if Members(j)[who].status == Active && Members(j)[who].clubs != [U32_MAX]
    then Members(j)[who].clubs == [club]
    else club == U32_MAX || CachedCount(j, club) == 0
  }

  /** A registration that the 32-bit count of its club can still follow. */
  predicate CleanRegistration(j: Journal, club: ClubId) {
    club == U32_MAX || CachedCount(j, club) < U32_MAX
  }

  ghost predicate CallsAreClean(j: Journal) {
    j != [] ==>
      && CallsAreClean(Front(j))
      && (Last(j).note.MemberRemoved? ==> CleanRemoval(Front(j), Last(j).note.who, Last(j).note.club))
      && (Last(j).note.MemberRegistered? ==> CleanRegistration(Front(j), Last(j).note.club))
  }

  lemma ActiveAfterRegistration(cfg: Config, j: Journal, club: ClubId)
    requires History(cfg, j) && j != [] && Last(j).note.MemberRegistered?
    ensures var e := Last(j).note;
            && e.who !in ActiveIn(Front(j), club)
            && ActiveIn(j, club) == ActiveIn(Front(j), club) + (if e.club == club then {e.who} else {})
  {
    var e := Last(j).note;
    assert e.who !in Members(Front(j));
    assert Members(j) == Members(Front(j))[e.who := MemberInfo([e.club], [], e.joinedAt, Active, None)];
  }

  /** A registration keeps the agreement if and only if it is clean. */
  lemma RegistrationAgreesExactlyWhenClean(cfg: Config, j: Journal)
    requires History(cfg, j) && j != [] && Last(j).note.MemberRegistered?
    requires Agrees(Front(j))
    ensures Agrees(j) <==> CleanRegistration(Front(j), Last(j).note.club)
  {
    var before, named := Front(j), Last(j).note.club;
    forall club: ClubId
      ensures |ActiveIn(j, club)| == |ActiveIn(before, club)| + (if club == named then 1 else 0)
      ensures CachedCount(j, club) ==
                if club == named then SatAdd32(CachedCount(before, club), 1) else CachedCount(before, club)
    {
      ActiveAfterRegistration(cfg, j, club);
    }
    assert named < U32_MAX ==> CachedCount(before, named) == |ActiveIn(before, named)|;
    if Agrees(j) {
      assert named < U32_MAX ==> CachedCount(j, named) == |ActiveIn(j, named)|;
    }
  }

  /** Nothing but a registration or a removal can break the agreement. */
  lemma OthersKeepAgreement(cfg: Config, j: Journal, club: ClubId)
    requires History(cfg, j) && j != [] && !Last(j).note.MemberRemoved? && !Last(j).note.MemberRegistered?
    requires club < U32_MAX && CachedCount(Front(j), club) == |ActiveIn(Front(j), club)|
    ensures CachedCount(j, club) == |ActiveIn(j, club)|
  {
    assert ActiveIn(j, club) == ActiveIn(Front(j), club);
    if Last(j).note.ClubCreated? && Last(j).note.club == club {
      ClubsAreBelowNext(cfg, Front(j));
      NoClubNoRecords(cfg, Front(j), club);
    }
  }

  lemma RemovalMovesOneClub(cfg: Config, j: Journal, club: ClubId)
    requires History(cfg, j) && j != [] && Last(j).note.MemberRemoved?
    ensures var who := Last(j).note.who;
            && who in Members(Front(j))
            && (if who in ActiveIn(Front(j), club) then |ActiveIn(j, club)| == |ActiveIn(Front(j), club)| - 1
                else |ActiveIn(j, club)| == |ActiveIn(Front(j), club)|)
  {
    var who := Last(j).note.who;
    assert ActiveIn(j, club) == ActiveIn(Front(j), club) - {who};
  }

  /** A removal keeps the agreement if and only if it is clean. */
  lemma RemovalAgreesExactlyWhenClean(cfg: Config, j: Journal)
    requires History(cfg, j) && j != [] && Last(j).note.MemberRemoved?
    requires Agrees(Front(j))
    ensures Agrees(j) <==> CleanRemoval(Front(j), Last(j).note.who, Last(j).note.club)
  {
    var before, who, named := Front(j), Last(j).note.who, Last(j).note.club;
    forall club: ClubId
      ensures |ActiveIn(j, club)| == |ActiveIn(before, club)| - (if who in ActiveIn(before, club) then 1 else 0)
      ensures CachedCount(j, club) ==
                if club == named then SatSub32(CachedCount(before, club), 1) else CachedCount(before, club)
    {
      RemovalMovesOneClub(cfg, j, club);
    }
    RemovalMovesOneClub(cfg, j, named);
    ClubsAreNeverMissing(cfg, before);
    var home: ClubId := Members(before)[who].clubs[0];
    assert Members(before)[who].clubs == [home];
    assert home < U32_MAX ==> CachedCount(before, home) == |ActiveIn(before, home)|;
    assert named < U32_MAX ==> CachedCount(before, named) == |ActiveIn(before, named)|;
    assert who in ActiveIn(before, home) <==> Members(before)[who].status == Active;
    assert home == named <==> Members(before)[who].clubs == [named];
    if Agrees(j) {
      assert home < U32_MAX ==> CachedCount(j, home) == |ActiveIn(j, home)|;
      assert named < U32_MAX ==> CachedCount(j, named) == |ActiveIn(j, named)|;
    }
  }

  /** The exact condition: the cached counts equal the numbers of active members throughout a history if and
      only if every registration and every removal in it was clean. */
  lemma {:induction false} AgreesExactlyWhenClean(cfg: Config, j: Journal)
    requires History(cfg, j)
    ensures AlwaysAgreed(j) <==> CallsAreClean(j)
  {
    if j == [] {
    } else {
      AgreesExactlyWhenClean(cfg, Front(j));
      if Agrees(Front(j)) {
        if Last(j).note.MemberRemoved? {
          RemovalAgreesExactlyWhenClean(cfg, j);
        } else if Last(j).note.MemberRegistered? {
          RegistrationAgreesExactlyWhenClean(cfg, j);
        } else {
          forall club: ClubId | club < U32_MAX ensures CachedCount(j, club) == |ActiveIn(j, club)| {
            OthersKeepAgreement(cfg, j, club);
          }
        }
      }
    }
  }

  lemma NoteFacts(j: Journal, e: Entry, club: ClubId)
    ensures var j' := j + [e];
            && NextClubId(j') == (if e.note.ClubCreated? then SatAdd32(NextClubId(j), 1) else NextClubId(j))
            && Admins(j') == (if e.note.ClubCreated? then Admins(j)[e.note.club := e.note.admin] else Admins(j))
            && (e.note.ClubCreated? ==>
                  && CachedCount(j', club) == (if e.note.club == club then 0 else CachedCount(j, club))
                  && Members(j') == Members(j))
            && (e.note.MemberRegistered? && e.note.club == club ==>
                  CachedCount(j', club) == SatAdd32(CachedCount(j, club), 1))
            && (e.note.MemberRemoved? && e.note.club != club ==> CachedCount(j', club) == CachedCount(j, club))
            && RemovalsNaming(j', club)
                 == RemovalsNaming(j, club) + (if e.note.MemberRemoved? && e.note.club == club then 1 else 0)
  {
    assert Front(j + [e]) == j;
  }

  function Founding(club: ClubId): Entry {
    Entry(Root, 0, ClubCreated(club, 1, Charter([], None)))
  }

  /** A removal that names the wrong club goes through and breaks the agreement: account 1 administers clubs
      0 and 1, registers account 2 in club 0 and removes it from club 1. */
  lemma WrongClubIsAccepted(cfg: Config)
    requires cfg.rootClubAdmin(Root)
    ensures exists j :: History(cfg, j) && NextClubId(j) == 2 && CachedCount(j, 0) == 1 && ActiveIn(j, 0) == {}
  {
    var j0: Journal := [];
    var e1, e2 := Founding(0), Founding(1);
    var e3, e4 := Entry(Signed(1), 0, MemberRegistered(2, 0, 0, None)), Entry(Signed(1), 0, MemberRemoved(2, 1));
    var j1 := j0 + [e1];
    var j2 := j1 + [e2];
    var j3 := j2 + [e3];
    var j4 := j3 + [e4];
    NoteFacts(j0, e1, 0);
    HistoryGoesOn(cfg, j0, e1);
    NoteFacts(j1, e2, 0);
    assert Last(j1) == e1;
    HistoryGoesOn(cfg, j1, e2);
    NoteFacts(j2, e3, 0);
    assert Last(j2) == e2 && AddMemberVerdict(j2, Signed(1), 2, 0) == Ok;
    HistoryGoesOn(cfg, j2, e3);
    NoteFacts(j3, e4, 0);
    assert Front(j3) == j2 && Members(j3).Keys == {2};
    assert Last(j3) == e3 && RemoveMemberVerdict(j3, Signed(1), 2, 1) == Ok;
    HistoryGoesOn(cfg, j3, e4);
    assert Front(j4) == j3 && Members(j4).Keys == {2} && ActiveIn(j4, 0) == {};
  }

  // ---------------------------------------------------------------------------------------------------
  // Exhausted club ids

  /** `n` clubs were created, all with admin 1, and nothing else has happened. */
  ghost predicate OnlyFounded(cfg: Config, j: Journal, n: ClubId) {
    && History(cfg, j) && NextClubId(j) == n && Members(j) == map[] && RemovalsNaming(j, U32_MAX) == 0
    && (j != [] ==> Last(j).now == 0)
  }

  lemma {:induction false} ClubIdsCanBeExhausted(cfg: Config, n: ClubId)
    requires cfg.rootClubAdmin(Root)
    ensures exists j :: OnlyFounded(cfg, j, n)
    decreases n
  {
    if n == 0 {
      assert OnlyFounded(cfg, [], 0);
    } else {
      ClubIdsCanBeExhausted(cfg, n - 1);
      var j :| OnlyFounded(cfg, j, n - 1);
      NoteFacts(j, Founding(n - 1), U32_MAX);
      HistoryGoesOn(cfg, j, Founding(n - 1));
      assert OnlyFounded(cfg, j + [Founding(n - 1)], n);
    }
  }

  /** What exhausting the ids breaks: creating the last club again resets its count while its member stays, so
      the count falls below the records less the removals. */
  lemma LastClubLosesItsCount(cfg: Config)
    requires cfg.rootClubAdmin(Root)
    ensures exists j :: History(cfg, j) && |RecordsIn(j, U32_MAX)| == 1 && RemovalsNaming(j, U32_MAX) == 0
                        && CachedCount(j, U32_MAX) == 0
  {
    ClubIdsCanBeExhausted(cfg, U32_MAX);
    var j :| OnlyFounded(cfg, j, U32_MAX);
    var found, join := Founding(U32_MAX), Entry(Signed(1), 0, MemberRegistered(2, U32_MAX, 0, None));
    var j1 := j + [found];
    NoteFacts(j, found, U32_MAX);
    HistoryGoesOn(cfg, j, found);
    var j2 := j1 + [join];
    NoteFacts(j1, join, U32_MAX);
    assert Last(j1) == found && AddMemberVerdict(j1, Signed(1), 2, U32_MAX) == Ok;
    HistoryGoesOn(cfg, j1, join);
    var j3 := j2 + [found];
    assert Last(j2) == join && Front(j2) == j1;
    NoteFacts(j2, found, U32_MAX);
    HistoryGoesOn(cfg, j2, found);
    assert Members(j2) == map[2 := MemberInfo([U32_MAX], [], 0, Active, None)];
    assert RecordsIn(j3, U32_MAX) == {2};
  }
}
