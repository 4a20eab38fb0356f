/**
The badges pallet as it runs: storage maps updated in place, a next instance id per class, and a bounded index
whose failed pushes are ignored. Each call returns what the journal alone determines.
*/
module BadgesPallet {
  import opened Common
  import opened BadgesHistory
  import opened BadgesTheorems

  type Badges = map<(ClassId, InstanceId), BadgeInstance>
  type NextIds = map<ClassId, InstanceId>
  type Indexes = map<ClassId, seq<InstanceId>>

  /** The class as first written, its count raised by the badges issued since. */
  function ClassNow(j: Journal, c: ClassId): ClassInfo
    requires c in Classes(j)
  {
    var info := Classes(j)[c];
    info.(instancesCount := Min(info.instancesCount + |Issued(j, c)|, U32_MAX))
  }

  ghost predicate ClassMatches(classes: map<ClassId, ClassInfo>, j: Journal, c: ClassId) {
    && (c in classes <==> c in Classes(j))
    && (c in classes ==> classes[c] == ClassNow(j, c))
  }

  ghost predicate ClassesMatch(classes: map<ClassId, ClassInfo>, j: Journal) {
    forall c {:trigger ClassMatches(classes, j, c)} :: ClassMatches(classes, j, c)
  }

  ghost predicate BadgeMatches(badges: Badges, j: Journal, c: ClassId, i: InstanceId) {
    BadgeAt(j, c, i) == if (c, i) in badges then Some(badges[(c, i)]) else None
  }

  function LiveIn(badges: Badges, c: ClassId): set<int> {
    set key | key in badges && key.0 == c :: key.1
  }

  ghost predicate BadgesMatch(badges: Badges, j: Journal) {
    forall c, i {:trigger BadgeMatches(badges, j, c, i)} :: BadgeMatches(badges, j, c, i)
  }

  function NextInstance(nextInstanceId: NextIds, c: ClassId): InstanceId {
    if c in nextInstanceId then nextInstanceId[c] else 0
  }

  function IndexOf(classInstances: Indexes, c: ClassId): seq<InstanceId> {
    if c in classInstances then classInstances[c] else []
  }

  /** The index of a class lists the first 1024 instance ids, in order, and no other. */
  ghost predicate IndexMatches(index: seq<InstanceId>, issued: nat) {
    |index| == Min(issued, MAX_INDEXED) && forall k :: 0 <= k < |index| ==> index[k] == k
  }

  ghost predicate IdsMatchAt(nextInstanceId: NextIds, classInstances: Indexes, j: Journal,
                             c: ClassId) {
    && NextInstance(nextInstanceId, c) == |Issued(j, c)|
    && IndexMatches(IndexOf(classInstances, c), |Issued(j, c)|)
  }

  ghost predicate IdsMatch(nextInstanceId: NextIds, classInstances: Indexes, j: Journal) {
    forall c {:trigger IdsMatchAt(nextInstanceId, classInstances, j, c)} ::
      IdsMatchAt(nextInstanceId, classInstances, j, c)
  }

  lemma HistoryGoesOn(cfg: Config, j: Journal, e: Entry)
    requires History(cfg, j) && Admitted(cfg, j, e)
    ensures History(cfg, j + [e]) && Last(j + [e]) == e
  {
    assert Front(j + [e]) == j;
  }

  lemma ClassesMatchAfterWrite(cfg: Config, classes: map<ClassId, ClassInfo>, j: Journal, e: Entry)
    requires History(cfg, j) && Admitted(cfg, j, e) && ClassesMatch(classes, j)
    requires e.note.ClassSeeded? || e.note.ClassCreated?
    ensures ClassesMatch(classes[e.note.classId := e.note.info], j + [e])
  {
    assert Front(j + [e]) == j;
    if e.note.ClassSeeded? {
      SeedingHasNoBadges(j, e.note.classId);
    } else {
      NewClassIsNew(cfg, j, Signed(e.note.info.creator));
      IssuedFit(cfg, j, e.note.classId);
    }
    var classes' := classes[e.note.classId := e.note.info];
    forall c: ClassId ensures ClassMatches(classes', j + [e], c) {
      assert ClassMatches(classes, j, c);
    }
  }

  lemma ClassesMatchAfterIssue(classes: map<ClassId, ClassInfo>, j: Journal, e: Entry)
    requires ClassesMatch(classes, j) && e.note.BadgeIssued? && e.note.classId in classes
    ensures var info := classes[e.note.classId];
            ClassesMatch(classes[e.note.classId := info.(instancesCount := SatAdd32(info.instancesCount, 1))], j + [e])
  {
    assert Front(j + [e]) == j;
    var info := classes[e.note.classId];
    var classes' := classes[e.note.classId := info.(instancesCount := SatAdd32(info.instancesCount, 1))];
    forall c: ClassId ensures ClassMatches(classes', j + [e], c) {
      assert ClassMatches(classes, j, c);
    }
  }

  lemma ClassesMatchOtherwise(classes: map<ClassId, ClassInfo>, j: Journal, e: Entry)
    requires ClassesMatch(classes, j) && (e.note.BadgeRevoked? || e.note.BadgeTransferred?)
    ensures ClassesMatch(classes, j + [e]) && NextClassId(j + [e]) == NextClassId(j)
  {
    assert Front(j + [e]) == j;
    forall c: ClassId ensures ClassMatches(classes, j + [e], c) {
      assert ClassMatches(classes, j, c);
    }
  }

  /** Badges other than the one a note names are as before. */
  lemma OtherBadgesMatch(badges: Badges, badges': Badges, j: Journal, e: Entry, c: ClassId, i: InstanceId)
    requires BadgeMatches(badges, j, c, i)
    requires e.note.ClassSeeded? || e.note.ClassCreated? || (e.note.classId, e.note.instance) != (c, i)
    requires e.note.BadgeIssued? ==> e.note.instance == |Issued(j, e.note.classId)|
    requires (c, i) in badges <==> (c, i) in badges'
    requires (c, i) in badges ==> badges'[(c, i)] == badges[(c, i)]
    ensures BadgeMatches(badges', j + [e], c, i)
  {
    assert Front(j + [e]) == j;
  }

  lemma BadgesMatchAfterClass(badges: Badges, j: Journal, e: Entry)
    requires BadgesMatch(badges, j) && (e.note.ClassSeeded? || e.note.ClassCreated?)
    ensures BadgesMatch(badges, j + [e])
  {
    forall c: ClassId, i: InstanceId ensures BadgeMatches(badges, j + [e], c, i) {
      assert BadgeMatches(badges, j, c, i);
      OtherBadgesMatch(badges, badges, j, e, c, i);
    }
  }

  lemma BadgesMatchAfterIssue(badges: Badges, j: Journal, e: Entry)
    requires BadgesMatch(badges, j) && e.note.BadgeIssued? && e.note.instance == |Issued(j, e.note.classId)|
    ensures BadgesMatch(badges[(e.note.classId, e.note.instance) := e.note.badge], j + [e])
  {
    var badges' := badges[(e.note.classId, e.note.instance) := e.note.badge];
    forall c: ClassId, i: InstanceId ensures BadgeMatches(badges', j + [e], c, i) {
      assert BadgeMatches(badges, j, c, i);
      if (c, i) == (e.note.classId, e.note.instance) {
        assert Front(j + [e]) == j;
      } else {
        OtherBadgesMatch(badges, badges', j, e, c, i);
      }
    }
  }

  lemma BadgesMatchAfterRevoke(badges: Badges, j: Journal, e: Entry)
    requires BadgesMatch(badges, j) && e.note.BadgeRevoked?
    ensures BadgesMatch(badges - {(e.note.classId, e.note.instance)}, j + [e])
  {
    var badges' := badges - {(e.note.classId, e.note.instance)};
    forall c: ClassId, i: InstanceId ensures BadgeMatches(badges', j + [e], c, i) {
      assert BadgeMatches(badges, j, c, i);
      if (c, i) == (e.note.classId, e.note.instance) {
        assert Front(j + [e]) == j;
      } else {
        OtherBadgesMatch(badges, badges', j, e, c, i);
      }
    }
  }

  lemma BadgesMatchAfterTransfer(badges: Badges, j: Journal, e: Entry)
    requires BadgesMatch(badges, j) && e.note.BadgeTransferred? && (e.note.classId, e.note.instance) in badges
    ensures var key := (e.note.classId, e.note.instance);
            BadgesMatch(badges[key := badges[key].(owner := e.note.to)], j + [e])
  {
    var key := (e.note.classId, e.note.instance);
    var badges' := badges[key := badges[key].(owner := e.note.to)];
    forall c: ClassId, i: InstanceId ensures BadgeMatches(badges', j + [e], c, i) {
      assert BadgeMatches(badges, j, c, i);
      if (c, i) == key {
        assert Front(j + [e]) == j;
      } else {
        OtherBadgesMatch(badges, badges', j, e, c, i);
      }
    }
  }

  function Pushed(index: seq<InstanceId>, i: InstanceId): seq<InstanceId> {
    if |index| < MAX_INDEXED then index + [i] else index
  }

  lemma IdsMatchAfterIssue(nextInstanceId: NextIds, classInstances: Indexes, j: Journal,
                           e: Entry, next: InstanceId)
    requires IdsMatch(nextInstanceId, classInstances, j) && e.note.BadgeIssued?
    requires next == e.note.instance + 1 == |Issued(j, e.note.classId)| + 1
    ensures var index := Pushed(IndexOf(classInstances, e.note.classId), e.note.instance);
            IdsMatch(nextInstanceId[e.note.classId := next], classInstances[e.note.classId := index], j + [e])
  {
    assert Front(j + [e]) == j;
    var index := Pushed(IndexOf(classInstances, e.note.classId), e.note.instance);
    var nextInstanceId' := nextInstanceId[e.note.classId := next];
    var classInstances' := classInstances[e.note.classId := index];
    forall c: ClassId ensures IdsMatchAt(nextInstanceId', classInstances', j + [e], c) {
      assert IdsMatchAt(nextInstanceId, classInstances, j, c);
    }
  }

  lemma IdsMatchOtherwise(nextInstanceId: NextIds, classInstances: Indexes, j: Journal, e: Entry)
    requires IdsMatch(nextInstanceId, classInstances, j) && !e.note.BadgeIssued?
    ensures IdsMatch(nextInstanceId, classInstances, j + [e])
  {
    assert Front(j + [e]) == j;
    forall c: ClassId ensures IdsMatchAt(nextInstanceId, classInstances, j + [e], c) {
      assert IdsMatchAt(nextInstanceId, classInstances, j, c);
    }
  }

  class BadgeRegistry {
    const cfg: Config
    var nextClassId: ClassId
    var nextInstanceId: NextIds
    var classes: map<ClassId, ClassInfo>
    var badgeInstances: Badges
    var classInstances: Indexes
    var now: Moment
    ghost var journal: Journal

    ghost predicate Valid()
      reads this
    {
      && History(cfg, journal)
      && (journal != [] ==> Last(journal).now <= now)
      && nextClassId == NextClassId(journal)
      && ClassesMatch(classes, journal)
      && BadgesMatch(badgeInstances, journal)
      && IdsMatch(nextInstanceId, classInstances, journal)
    }

    /** Genesis: inserts the classes one by one and keeps the next id above them. */
    constructor (cfg: Config, genesis: seq<(ClassId, ClassInfo)>)
      ensures Valid() && this.cfg == cfg
      ensures journal == Seeds(genesis) && now == 0
    {
      this.cfg := cfg;
      nextClassId, nextInstanceId := 0, map[];
      classes, badgeInstances, classInstances := map[], map[], map[];
      now := 0;
      journal := [];
      new;
      for i := 0 to |genesis|
        invariant Valid() && this.cfg == cfg && now == 0
        invariant journal == Seeds(genesis[..i])
      {
        var (id, info) := genesis[i];
        ghost var e := Entry(0, ClassSeeded(id, info));
        assert Front(genesis[..i + 1]) == genesis[..i];
        SeedsAreHistory(cfg, genesis[..i]);
        assert Admitted(cfg, journal, e);
        HistoryGoesOn(cfg, journal, e);
        ClassesMatchAfterWrite(cfg, classes, journal, e);
        BadgesMatchAfterClass(badgeInstances, journal, e);
        IdsMatchOtherwise(nextInstanceId, classInstances, journal, e);
        classes := classes[id := info];
        var next := nextClassId;
        if id >= next {
          nextClassId := SatAdd32(id, 1);
        }
        journal := journal + [e];
      }
      assert genesis[..|genesis|] == genesis;
    }

    /** Time passes and never runs backwards. */
    method Advance(millis: nat)
      requires Valid()
      modifies this`now
      ensures Valid() && now == Min(old(now) + millis, U64_MAX)
    {
      now := Min(now + millis, U64_MAX);
    }

    method CreateClass(origin: Origin, metadataHash: Hash, club: Option<ClubId>, defaultTransferable: bool,
                       defaultSoulbound: bool)
      returns (r: Verdict)
      requires Valid()
      modifies this
      ensures Valid() && now == old(now) && r == CreateClassVerdict(cfg, old(journal), origin)
      ensures r != Ok ==> unchanged(this)
      ensures r == Ok ==>
                var info := ClassInfo(origin.who, club, metadataHash, defaultTransferable, defaultSoulbound, 0);
                journal == old(journal) + [Entry(now, ClassCreated(NextClassId(old(journal)), info))]
    {
      if !cfg.classCreation(origin) {
        return Err(BadOrigin);
      }
      if !origin.Signed? {
        return Err(BadOrigin);
      }
      var id := nextClassId;
      if !(id < cfg.maxClasses) {
        return Err(ClassLimitReached);
      }
      var info := ClassInfo(origin.who, club, metadataHash, defaultTransferable, defaultSoulbound, 0);
      ghost var e := Entry(now, ClassCreated(id, info));
      assert Admitted(cfg, journal, e);
      HistoryGoesOn(cfg, journal, e);
      ClassesMatchAfterWrite(cfg, classes, journal, e);
      BadgesMatchAfterClass(badgeInstances, journal, e);
      IdsMatchOtherwise(nextInstanceId, classInstances, journal, e);
      classes := classes[id := info];
      nextClassId := SatAdd32(id, 1);
      journal := journal + [e];
      return Ok;
    }

    /** The checks of `issue_badge`, in its order. */
    method EnsureMayIssue(origin: Origin, c: ClassId) returns (r: Verdict)
      requires Valid()
      ensures r == IssueVerdict(cfg, journal, origin, c)
    {
      if !origin.Signed? {
        return Err(BadOrigin);
      }
      assert ClassMatches(classes, journal, c);
      if c !in classes {
        return Err(ClassNotFound);
      }
      var allowed := false;
      if classes[c].club.Some? {
        if origin.who == classes[c].creator {
          allowed := true;
        }
      } else {
        allowed := origin.who == classes[c].creator;
      }
      if !allowed {
        return Err(NotIssuer);
      }
      var nextInst := NextInstance(nextInstanceId, c);
      assert IdsMatchAt(nextInstanceId, classInstances, journal, c);
      if !(nextInst < cfg.maxInstancesPerClass) {
        return Err(InstancesLimitReached);
      }
      return Ok;
    }

    /** Appends to the index of a class; a push beyond the bound fails and is ignored. */
    method PushInstance(c: ClassId, i: InstanceId)
      modifies this`classInstances
      ensures var index := IndexOf(old(classInstances), c);
              classInstances == old(classInstances)[c := Pushed(index, i)]
    {
      if c !in classInstances {
        classInstances := classInstances[c := []];
      }
      if |classInstances[c]| < MAX_INDEXED {
        classInstances := classInstances[c := classInstances[c] + [i]];
      }
    }

    /** The writes of `issue_badge`, in its order. */
    method StoreBadge(c: ClassId, i: InstanceId, badge: BadgeInstance)
      requires Valid() && Admitted(cfg, journal, Entry(now, BadgeIssued(c, i, badge)))
      modifies this
      ensures Valid() && now == old(now)
      ensures journal == old(journal) + [Entry(now, BadgeIssued(c, i, badge))]
    {
      ghost var e := Entry(now, BadgeIssued(c, i, badge));
      IssuedFit(cfg, journal, c);
      assert ClassMatches(classes, journal, c);
      HistoryGoesOn(cfg, journal, e);
      ClassesMatchAfterIssue(classes, journal, e);
      BadgesMatchAfterIssue(badgeInstances, journal, e);
      IdsMatchAfterIssue(nextInstanceId, classInstances, journal, e, SatAdd64(i, 1));
      assert NextClassId(journal + [e]) == NextClassId(journal) by {
        assert Front(journal + [e]) == journal;
      }
      badgeInstances := badgeInstances[(c, i) := badge];
      var info := classes[c];
      info := info.(instancesCount := SatAdd32(info.instancesCount, 1));
      PushInstance(c, i);
      nextInstanceId := nextInstanceId[c := SatAdd64(i, 1)];
      classes := classes[c := info];
      journal := journal + [e];
    }

    method IssueBadge(origin: Origin, c: ClassId, to: AccountId, uriHash: Hash, transferable: Option<bool>,
                      soulbound: Option<bool>)
      returns (r: Verdict)
      requires Valid()
      modifies this
      ensures Valid() && now == old(now) && r == IssueVerdict(cfg, old(journal), origin, c)
      ensures r != Ok ==> unchanged(this)
      ensures r == Ok ==>
                var info := Classes(old(journal))[c];
                var badge := BadgeInstance(to, now, origin.who, uriHash,
                                           if transferable.Some? then transferable.value else info.defaultTransferable,
                                           if soulbound.Some? then soulbound.value else info.defaultSoulbound);
                journal == old(journal) + [Entry(now, BadgeIssued(c, |Issued(old(journal), c)|, badge))]
    {
      r := EnsureMayIssue(origin, c);
      if r != Ok {
        return;
      }
      assert ClassMatches(classes, journal, c);
      var info := classes[c];
      var nextInst := NextInstance(nextInstanceId, c);
      assert IdsMatchAt(nextInstanceId, classInstances, journal, c);
      var instTransferable := if transferable.Some? then transferable.value else info.defaultTransferable;
      var instSoulbound := if soulbound.Some? then soulbound.value else info.defaultSoulbound;
      var instance := BadgeInstance(to, now, origin.who, uriHash, instTransferable, instSoulbound);
      StoreBadge(c, nextInst, instance);
    }

    method RevokeBadge(origin: Origin, c: ClassId, i: InstanceId) returns (r: Verdict)
      requires Valid()
      modifies this
      ensures Valid() && now == old(now) && r == RevokeVerdict(old(journal), origin, c, i)
      ensures r != Ok ==> unchanged(this)
      ensures r == Ok ==> journal == old(journal) + [Entry(now, BadgeRevoked(c, i, origin.who))]
    {
      assert BadgeMatches(badgeInstances, journal, c, i);
      if !origin.Signed? {
        return Err(BadOrigin);
      }
      assert ClassMatches(classes, journal, c);
      if c !in classes {
        return Err(ClassNotFound);
      }
      var allowed := false;
      if classes[c].club.Some? {
        if origin.who == classes[c].creator {
          allowed := true;
        }
      } else {
        allowed := origin.who == classes[c].creator;
      }
      if !allowed {
        return Err(NotClassOwner);
      }
      if (c, i) !in badgeInstances {
        return Err(InstanceNotFound);
      }
      ghost var e := Entry(now, BadgeRevoked(c, i, origin.who));
      assert Admitted(cfg, journal, e);
      HistoryGoesOn(cfg, journal, e);
      ClassesMatchOtherwise(classes, journal, e);
      BadgesMatchAfterRevoke(badgeInstances, journal, e);
      IdsMatchOtherwise(nextInstanceId, classInstances, journal, e);
      badgeInstances := badgeInstances - {(c, i)};
      journal := journal + [e];
      return Ok;
    }

    method TransferBadge(origin: Origin, c: ClassId, i: InstanceId, to: AccountId) returns (r: Verdict)
      requires Valid()
      modifies this
      ensures Valid() && now == old(now) && r == TransferVerdict(old(journal), origin, c, i)
      ensures r != Ok ==> unchanged(this)
      ensures r == Ok ==> journal == old(journal) + [Entry(now, BadgeTransferred(c, i, origin.who, to))]
    {
      assert BadgeMatches(badgeInstances, journal, c, i);
      if !origin.Signed? {
        return Err(BadOrigin);
      }
      if (c, i) !in badgeInstances {
        return Err(InstanceNotFound);
      }
      var inst := badgeInstances[(c, i)];
      if inst.owner != origin.who {
        return Err(NotOwner);
      }
      if inst.soulbound {
        return Err(Soulbound);
      }
      if !inst.transferable {
        return Err(NotTransferable);
      }
      var prev := inst.owner;
      inst := inst.(owner := to);
      ghost var e := Entry(now, BadgeTransferred(c, i, prev, to));
      assert Admitted(cfg, journal, e);
      HistoryGoesOn(cfg, journal, e);
      ClassesMatchOtherwise(classes, journal, e);
      BadgesMatchAfterTransfer(badgeInstances, journal, e);
      IdsMatchOtherwise(nextInstanceId, classInstances, journal, e);
      badgeInstances := badgeInstances[(c, i) := inst];
      journal := journal + [e];
      return Ok;
    }

    /** Storage counts every badge: the live ones in the map and the revoked ones add up to the next instance
        id, the index holds the first 1024 ids, and a class made by `create_class` counts its badges exactly. */
    lemma StorageCounts(c: ClassId)
      requires Valid()
      ensures |LiveIn(badgeInstances, c)| + Revocations(journal, c) == NextInstance(nextInstanceId, c)
      ensures IndexMatches(IndexOf(classInstances, c), NextInstance(nextInstanceId, c))
      ensures (exists k :: 0 <= k < |journal| && journal[k].note.ClassCreated? && journal[k].note.classId == c) ==>
                c in classes && classes[c].instancesCount == NextInstance(nextInstanceId, c)
    {
      assert IdsMatchAt(nextInstanceId, classInstances, journal, c);
      assert ClassMatches(classes, journal, c);
      BadgesAreConserved(cfg, journal, c);
      IssuedFit(cfg, journal, c);
      assert LiveIn(badgeInstances, c) == LiveBadges(journal, c) by {
        forall i: InstanceId ensures (c, i) in badgeInstances <==> i in LiveBadges(journal, c) {
          assert BadgeMatches(badgeInstances, journal, c, i);
          OwnedExactlyWhile(cfg, journal, c, i);
        }
      }
      if k: nat :| k < |journal| && journal[k].note.ClassCreated? && journal[k].note.classId == c {
        CreatedClassesStartAtZero(cfg, journal, k);
      }
    }

    /** The owner in storage is the owner that replaying the events gives, for every class and instance. */
    method OwnerInStorage(c: ClassId, i: InstanceId) returns (owner: Option<AccountId>)
      requires Valid()
      ensures owner == OwnerOf(journal, c, i)
    {
      assert BadgeMatches(badgeInstances, journal, c, i);
      OwnedExactlyWhile(cfg, journal, c, i);
      if (c, i) in badgeInstances {
        return Some(badgeInstances[(c, i)].owner);
      }
      return None;
    }
  
    /** Makes the call that an admitted entry stands for. */
    method Follow(e: Entry)
      requires Valid() && Admitted(cfg, journal, e) && !e.note.ClassSeeded? && now <= e.now
      modifies this
      ensures Valid() && now == e.now && journal == old(journal) + [e]
    {
      Advance(e.now - now);
      var r: Verdict;
      match e.note {
        case ClassCreated(_, info) =>
          r := CreateClass(Signed(info.creator), info.metadataHash, info.club, info.defaultTransferable,
                           info.defaultSoulbound);
        case BadgeIssued(c, _, badge) =>
          r := IssueBadge(Signed(badge.issuer), c, badge.owner, badge.uriHash, Some(badge.transferable),
                          Some(badge.soulbound));
        case BadgeRevoked(c, i, revoker) => r := RevokeBadge(Signed(revoker), c, i);
        case BadgeTransferred(c, i, from, to) => r := TransferBadge(Signed(from), c, i, to);
      }
    }
  }

  /** Makes the recorded calls from position `n` on. */
  method FollowFrom(badges: BadgeRegistry, j: Journal, n: nat)
    requires badges.Valid() && History(badges.cfg, j)
    requires n <= |j| && badges.journal == j[..n] && (n < |j| ==> !j[n].note.ClassSeeded?)
    requires badges.now == 0
    modifies badges
    ensures badges.Valid() && badges.journal == j
  {
    for k := n to |j|
      invariant badges.Valid() && badges.journal == j[..k]
      invariant k < |j| ==> badges.now <= j[k].now
    {
      NextIsCall(badges.cfg, j, n, k);
      badges.Follow(j[k]);
    }
    assert j[..|j|] == j;
  }

  /** Every history is a run of the pallet: the genesis classes it starts with and the calls it records, made in
      order, lead to it. */
  method Replay(cfg: Config, j: Journal) returns (badges: BadgeRegistry)
    requires History(cfg, j)
    ensures fresh(badges) && badges.cfg == cfg && badges.Valid() && badges.journal == j
  {
    var n := 0;
    while n < |j| && j[n].note.ClassSeeded?
      invariant n <= |j| && Seeding(j[..n])
    {
      assert Front(j[..n + 1]) == j[..n];
      n := n + 1;
    }
    var genesis := GenesisOf(j[..n]);
    HistoryPrefix(cfg, j, n);
    SeedsOfGenesis(cfg, j[..n]);
    badges := new BadgeRegistry(cfg, genesis);
    FollowFrom(badges, j, n);
  }
}
