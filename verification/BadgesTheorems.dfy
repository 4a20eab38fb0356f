/** What every history of the badges pallet satisfies. */
module BadgesTheorems {
  import opened Common
  import opened BadgesHistory

  lemma {:induction false} HistoryPrefix(cfg: Config, j: Journal, k: nat)
    requires History(cfg, j) && k <= |j|
    ensures History(cfg, j[..k])
    ensures k < |j| ==> Admitted(cfg, j[..k], j[k]) && j[..k + 1] == j[..k] + [j[k]]
  {
    if k == |j| {
      assert j[..k] == j;
    } else if k == |j| - 1 {
      assert j[..k] == Front(j) && j[k] == Last(j);
    } else {
      HistoryPrefix(cfg, Front(j), k);
      assert Front(j)[..k] == j[..k];
    }
  }

  /** The calls of a history start where its seeds end. */
  lemma NextIsCall(cfg: Config, j: Journal, n: nat, k: nat)
    requires History(cfg, j) && n <= k < |j| && !j[n].note.ClassSeeded?
    ensures Admitted(cfg, j[..k], j[k]) && !j[k].note.ClassSeeded? && j[..k + 1] == j[..k] + [j[k]]
    ensures k + 1 < |j| ==> j[k].now <= j[k + 1].now
  {
    HistoryPrefix(cfg, j, k);
    HistoryPrefix(cfg, j, k + 1);
    assert Last(j[..k + 1]) == j[k];
    if k > n {
      SeedingHasOnlySeeds(j[..k], n);
    }
  }

  lemma {:induction false} SeedingHasOnlySeeds(j: Journal, n: nat)
    requires n < |j|
    ensures Seeding(j) ==> j[n].note.ClassSeeded?
  {
    if n == |j| - 1 {
    } else {
      SeedingHasOnlySeeds(Front(j), n);
    }
  }

  // ---------------------------------------------------------------------------------------------------
  // Classes

  lemma {:induction false} ClassesAreBelowNext(cfg: Config, j: Journal)
    requires History(cfg, j)
    ensures forall c :: c in Classes(j) ==> c < NextClassId(j) || NextClassId(j) == U32_MAX
  {
    if j == [] {
    } else {
      ClassesAreBelowNext(cfg, Front(j));
    }
  }

  /** `create_class` never overwrites a class, whatever genesis seeded: the class limit is a 32-bit number. */
  lemma NewClassIsNew(cfg: Config, j: Journal, origin: Origin)
    requires History(cfg, j) && CreateClassVerdict(cfg, j, origin) == Ok
    ensures NextClassId(j) !in Classes(j) && NextClassId(j) < U32_MAX
  {
    ClassesAreBelowNext(cfg, j);
  }

  /** After genesis, classes are only added and never change. */
  lemma {:induction false} ClassesAreKept(cfg: Config, j: Journal, k: nat, c: ClassId)
    requires History(cfg, j) && k <= |j| && c in Classes(j[..k])
    requires !Seeding(j[..k])
    ensures c in Classes(j) && Classes(j)[c] == Classes(j[..k])[c] && !Seeding(j)
  {
    if k < |j| {
      assert Front(j)[..k] == j[..k];
      ClassesAreKept(cfg, Front(j), k, c);
      if Last(j).note.ClassCreated? {
        NewClassIsNew(cfg, Front(j), Signed(Last(j).note.info.creator));
      }
    } else {
      assert j[..k] == j;
    }
  }

  lemma {:induction false} CreatedClassesStartAtZero(cfg: Config, j: Journal, k: nat)
    requires History(cfg, j) && k < |j| && j[k].note.ClassCreated?
    ensures var c := j[k].note.classId;
            c in Classes(j) && Classes(j)[c] == j[k].note.info && Classes(j)[c].instancesCount == 0
  {
    if k < |j| - 1 {
      CreatedClassesStartAtZero(cfg, Front(j), k);
      SeedingHasOnlySeeds(Front(j), k);
      if Last(j).note.ClassCreated? {
        NewClassIsNew(cfg, Front(j), Signed(Last(j).note.info.creator));
      }
    }
  }

  /** The journal that a genesis list of classes leaves behind. */
  function Seeds(genesis: seq<(ClassId, ClassInfo)>): Journal {
    if genesis == [] then [] else Seeds(Front(genesis)) + [Entry(0, ClassSeeded(Last(genesis).0, Last(genesis).1))]
  }

  lemma {:induction false} SeedsAreHistory(cfg: Config, genesis: seq<(ClassId, ClassInfo)>)
    ensures var j := Seeds(genesis); Seeding(j) && History(cfg, j) && (j != [] ==> Last(j).now == 0)
  {
    if genesis == [] {
    } else {
      SeedsAreHistory(cfg, Front(genesis));
      assert Front(Seeds(genesis)) == Seeds(Front(genesis));
      assert Admitted(cfg, Seeds(Front(genesis)), Last(Seeds(genesis)));
    }
  }

  /** The genesis list behind a journal of seeds. */
  function GenesisOf(j: Journal): seq<(ClassId, ClassInfo)> {
    if j == [] then []
    else if Last(j).note.ClassSeeded? then GenesisOf(Front(j)) + [(Last(j).note.classId, Last(j).note.info)]
    else GenesisOf(Front(j))
  }

  lemma {:induction false} SeedsOfGenesis(cfg: Config, j: Journal)
    requires History(cfg, j) && Seeding(j)
    ensures Seeds(GenesisOf(j)) == j
  {
    if j == [] {
    } else {
      SeedsOfGenesis(cfg, Front(j));
      assert Front(GenesisOf(j)) == GenesisOf(Front(j));
    }
  }

  ghost predicate IsLastFor(genesis: seq<(ClassId, ClassInfo)>, i: nat)
    requires i < |genesis|
  {
    forall l :: i < l < |genesis| ==> genesis[l].0 != genesis[i].0
  }

  /** For any genesis list, in any order and with repetitions, every listed id has an entry in storage, the last
      one listed for it, and the next id is above it unless it is the largest possible id. */
  lemma {:induction false} GenesisSeedsClasses(genesis: seq<(ClassId, ClassInfo)>, i: nat)
    requires i < |genesis|
    ensures var j, id := Seeds(genesis), genesis[i].0;
            && id in Classes(j)
            && (IsLastFor(genesis, i) ==> Classes(j)[id] == genesis[i].1)
            && (id < NextClassId(j) || id == U32_MAX)
  {
    assert Front(Seeds(genesis)) == Seeds(Front(genesis));
    if i == |genesis| - 1 {
    } else {
      GenesisSeedsClasses(Front(genesis), i);
      assert Front(genesis)[i] == genesis[i];
      assert IsLastFor(genesis, i) ==> IsLastFor(Front(genesis), i) && genesis[|genesis| - 1].0 != genesis[i].0;
    }
  }

  /** Nothing else is in storage. */
  lemma {:induction false} GenesisSeedsOnlyListedClasses(genesis: seq<(ClassId, ClassInfo)>, id: ClassId)
    returns (i: nat)
    requires id in Classes(Seeds(genesis))
    ensures i < |genesis| && genesis[i].0 == id
  {
    assert Front(Seeds(genesis)) == Seeds(Front(genesis));
    if Last(genesis).0 == id {
      i := |genesis| - 1;
    } else {
      i := GenesisSeedsOnlyListedClasses(Front(genesis), id);
    }
  }

  lemma {:induction false} SeedingHasNoBadges(j: Journal, c: ClassId)
    requires Seeding(j)
    ensures Issued(j, c) == []
  {
    if j == [] {
    } else {
      SeedingHasNoBadges(Front(j), c);
    }
  }

  // ---------------------------------------------------------------------------------------------------
  // Badges

  /** No class ever has more badges than the limit, so instance ids are fresh and nothing saturates. */
  lemma {:induction false} IssuedFit(cfg: Config, j: Journal, c: ClassId)
    requires History(cfg, j)
    ensures |Issued(j, c)| <= cfg.maxInstancesPerClass
    ensures c !in Classes(j) ==> Issued(j, c) == []
  {
    if j == [] {
    } else {
      IssuedFit(cfg, Front(j), c);
    }
  }

  /** A badge has an owner exactly if it was issued and not revoked. */
  lemma {:induction false} OwnedExactlyWhile(cfg: Config, j: Journal, c: ClassId, i: InstanceId)
    requires History(cfg, j)
    ensures OwnerOf(j, c, i).Some? <==> i < |Issued(j, c)| && !Revoked(j, c, i)
    ensures Revoked(j, c, i) ==> i < |Issued(j, c)|
  {
    if j == [] {
    } else {
      OwnedExactlyWhile(cfg, Front(j), c, i);
    }
  }

  /** A revoked badge never exists again, however the history goes on. */
  lemma {:induction false} RevokedStaysRevoked(cfg: Config, j: Journal, k: nat, c: ClassId, i: InstanceId)
    requires History(cfg, j) && k <= |j| && Revoked(j[..k], c, i)
    ensures Revoked(j, c, i) && OwnerOf(j, c, i) == None && BadgeAt(j, c, i) == None
  {
    if k < |j| {
      assert Front(j)[..k] == j[..k];
      RevokedStaysRevoked(cfg, Front(j), k, c, i);
    } else {
      assert j[..k] == j;
    }
    OwnedExactlyWhile(cfg, j, c, i);
  }

  /** What a badge was issued with never changes: flags, issuer, time and uri hash. */
  lemma {:induction false} BadgesAreKept(j: Journal, k: nat, c: ClassId, i: InstanceId)
    requires k <= |j|
    ensures Issued(j[..k], c) <= Issued(j, c)
    ensures BadgeAt(j[..k], c, i).Some? && BadgeAt(j, c, i).Some? ==>
              BadgeAt(j, c, i).value == BadgeAt(j[..k], c, i).value.(owner := BadgeAt(j, c, i).value.owner)
  {
    if k < |j| {
      assert Front(j)[..k] == j[..k];
      BadgesAreKept(Front(j), k, c, i);
    } else {
      assert j[..k] == j;
    }
  }

  /** A badge issued soulbound or not transferable stays with its first recipient for as long as it exists. */
  lemma {:induction false} BoundBadgesStay(cfg: Config, j: Journal, c: ClassId, i: InstanceId)
    requires History(cfg, j) && i < |Issued(j, c)|
    requires Issued(j, c)[i].soulbound || !Issued(j, c)[i].transferable
    ensures OwnerOf(j, c, i).Some? ==> OwnerOf(j, c, i).value == Issued(j, c)[i].owner
  {
    if i < |Issued(Front(j), c)| {
      BoundBadgesStay(cfg, Front(j), c, i);
    }
  }

  /** Any other badge changes hands only by a transfer that its owner made. */
  lemma OwnersChangeByTransfer(cfg: Config, j: Journal, c: ClassId, i: InstanceId)
    requires History(cfg, j) && j != []
    requires OwnerOf(Front(j), c, i).Some? && OwnerOf(j, c, i) != OwnerOf(Front(j), c, i)
    ensures || (exists revoker: AccountId :: Last(j).note == BadgeRevoked(c, i, revoker))
            || (exists to: AccountId :: Last(j).note == BadgeTransferred(c, i, OwnerOf(Front(j), c, i).value, to)
                                        && OwnerOf(j, c, i) == Some(to))
  {
    OwnedExactlyWhile(cfg, Front(j), c, i);
    if Last(j).note.BadgeTransferred? {
      assert Last(j).note == BadgeTransferred(c, i, OwnerOf(Front(j), c, i).value, Last(j).note.to);
    } else {
      assert Last(j).note == BadgeRevoked(c, i, Last(j).note.revoker);
    }
  }

  // ---------------------------------------------------------------------------------------------------
  // Conservation

  function LiveBadges(j: Journal, c: ClassId): set<int> {
    set i | 0 <= i < |Issued(j, c)| && i <= U64_MAX && OwnerOf(j, c, i).Some?
  }

  function Revocations(j: Journal, c: ClassId): nat {
    if j == [] then 0
    else Revocations(Front(j), c) + (if Last(j).note.BadgeRevoked? && Last(j).note.classId == c then 1 else 0)
  }

  lemma LiveAfterIssue(cfg: Config, j: Journal, c: ClassId)
    requires History(cfg, j) && j != [] && Last(j).note.BadgeIssued? && Last(j).note.classId == c
    ensures Last(j).note.instance !in LiveBadges(Front(j), c)
    ensures LiveBadges(j, c) == LiveBadges(Front(j), c) + {Last(j).note.instance}
  {
    assert Issued(j, c) == Issued(Front(j), c) + [Last(j).note.badge];
  }

  lemma LiveAfterRevoke(cfg: Config, j: Journal, c: ClassId)
    requires History(cfg, j) && j != [] && Last(j).note.BadgeRevoked? && Last(j).note.classId == c
    ensures Last(j).note.instance in LiveBadges(Front(j), c)
    ensures LiveBadges(j, c) == LiveBadges(Front(j), c) - {Last(j).note.instance}
  {
    assert Issued(j, c) == Issued(Front(j), c);
  }

  lemma LiveOtherwise(j: Journal, c: ClassId)
    requires j != []
    requires Last(j).note.BadgeIssued? || Last(j).note.BadgeRevoked? ==> Last(j).note.classId != c
    requires Last(j).note.BadgeTransferred? ==> OwnerOf(Front(j), Last(j).note.classId, Last(j).note.instance).Some?
    ensures LiveBadges(j, c) == LiveBadges(Front(j), c)
  {
    assert Issued(j, c) == Issued(Front(j), c);
  }

  /** Badges are neither lost nor invented: live and revoked ones add up to those issued. */
  lemma {:induction false} BadgesAreConserved(cfg: Config, j: Journal, c: ClassId)
    requires History(cfg, j)
    ensures |LiveBadges(j, c)| + Revocations(j, c) == |Issued(j, c)|
  {
    if j == [] {
    } else {
      BadgesAreConserved(cfg, Front(j), c);
      var e := Last(j).note;
      if e.BadgeIssued? && e.classId == c {
        LiveAfterIssue(cfg, j, c);
      } else if e.BadgeRevoked? && e.classId == c {
        LiveAfterRevoke(cfg, j, c);
      } else {
        LiveOtherwise(j, c);
      }
    }
  }
}
