/** The laws of the badges pallet: who may create, issue, revoke and transfer, read from the notes by position. */
module BadgesLaws {
  import opened Common
  import opened Readings
  import opened BadgesHistory
  import opened BadgesTheorems

  // ---------------------------------------------------------------------------------------------------
  // Classes

  function WritesClass(c: ClassId): Entry -> bool {
    (e: Entry) => (e.note.ClassSeeded? || e.note.ClassCreated?) && e.note.classId == c
  }

  /** The creator named by the latest note that wrote the class. */
  ghost predicate IsCreator(j: Journal, c: ClassId, who: AccountId) {
    exists k: nat :: Latest(j, WritesClass(c), k) && j[k].note.info.creator == who
  }

  /** The replayed classes are those that were seeded or created, as written last. */
  lemma {:induction false} ClassesAreWritten(j: Journal, c: ClassId)
    ensures c in Classes(j) <==> Ever(j, WritesClass(c))
    ensures forall k: nat :: Latest(j, WritesClass(c), k) ==> c in Classes(j) && Classes(j)[c] == j[k].note.info
  {
    if j == [] {
    } else {
      ClassesAreWritten(Front(j), c);
      EverStep(j, WritesClass(c));
      forall k: nat | Latest(j, WritesClass(c), k) ensures c in Classes(j) && Classes(j)[c] == j[k].note.info {
        LatestStep(j, WritesClass(c), k);
      }
    }
  }

  lemma CreatorsAreRead(j: Journal, c: ClassId, who: AccountId)
    ensures IsCreator(j, c, who) <==> c in Classes(j) && Classes(j)[c].creator == who
  {
    ClassesAreWritten(j, c);
    LatestExists(j, WritesClass(c));
  }

  /** The next class id is one above the largest id ever written, saturating. */
  lemma {:induction false} NextClassIdIsAbove(cfg: Config, j: Journal)
    requires History(cfg, j)
    ensures forall c: ClassId :: Ever(j, WritesClass(c)) ==> c < NextClassId(j) || c == U32_MAX
    ensures NextClassId(j) == 0 || exists c: ClassId :: Ever(j, WritesClass(c)) && NextClassId(j) == SatAdd32(c, 1)
  {
    if j == [] {
    } else {
      NextClassIdIsAbove(cfg, Front(j));
      forall c: ClassId ensures Ever(j, WritesClass(c)) <==> Ever(Front(j), WritesClass(c)) || WritesClass(c)(Last(j)) {
        EverStep(j, WritesClass(c));
      }
      if Last(j).note.ClassSeeded? || Last(j).note.ClassCreated? {
        assert Ever(j, WritesClass(Last(j).note.classId));
      }
    }
  }

  /** A class is created by a signed creation origin, while every id written so far leaves room below the limit. */
  lemma CreateClassLaw(cfg: Config, j: Journal, origin: Origin)
    requires History(cfg, j)
    ensures CreateClassVerdict(cfg, j, origin) == Err(BadOrigin) <==> !origin.Signed? || !cfg.classCreation(origin)
    ensures CreateClassVerdict(cfg, j, origin) == Err(ClassLimitReached) <==>
              && origin.Signed? && cfg.classCreation(origin)
              && (|| cfg.maxClasses == 0
                  || exists c: ClassId :: Ever(j, WritesClass(c)) && SatAdd32(c, 1) >= cfg.maxClasses)
    ensures CreateClassVerdict(cfg, j, origin).Err? ==>
              CreateClassVerdict(cfg, j, origin).error in {BadOrigin, ClassLimitReached}
  {
    NextClassIdIsAbove(cfg, j);
    if c: ClassId :| Ever(j, WritesClass(c)) && SatAdd32(c, 1) >= cfg.maxClasses {
      assert c < NextClassId(j) || c == U32_MAX;
      ClassesAreWritten(j, c);
      ClassesAreBelowNext(cfg, j);
    }
  }

  // ---------------------------------------------------------------------------------------------------
  // Badges

  function Issues(c: ClassId): Entry -> bool {
    (e: Entry) => e.note.BadgeIssued? && e.note.classId == c
  }

  function IssuesBadge(c: ClassId, i: InstanceId): Entry -> bool {
    (e: Entry) => e.note.BadgeIssued? && e.note.classId == c && e.note.instance == i
  }

  function Revokes(c: ClassId, i: InstanceId): Entry -> bool {
    (e: Entry) => e.note.BadgeRevoked? && e.note.classId == c && e.note.instance == i
  }

  /** The badge was put into somebody's hands. */
  function Hands(c: ClassId, i: InstanceId): Entry -> bool {
    (e: Entry) => (e.note.BadgeIssued? || e.note.BadgeTransferred?) && e.note.classId == c && e.note.instance == i
  }

  function Receiver(note: Note): AccountId
    requires note.BadgeIssued? || note.BadgeTransferred?
  {
    if note.BadgeIssued? then note.badge.owner else note.to
  }

  ghost predicate Exists(j: Journal, c: ClassId, i: InstanceId) {
    Ever(j, IssuesBadge(c, i)) && !Ever(j, Revokes(c, i))
  }

  /** The badge exists, and `who` was the last to receive it. */
  ghost predicate Holds(j: Journal, c: ClassId, i: InstanceId, who: AccountId) {
    Exists(j, c, i) && exists k: nat :: Latest(j, Hands(c, i), k) && Receiver(j[k].note) == who
  }

  /** The replayed badges are those issued, numbered in order. */
  lemma {:induction false} BadgesAreIssued(cfg: Config, j: Journal, c: ClassId, i: InstanceId)
    requires History(cfg, j)
    ensures |Issued(j, c)| == Count(j, Issues(c))
    ensures i < |Issued(j, c)| <==> Ever(j, IssuesBadge(c, i))
    ensures forall k: nat :: Latest(j, IssuesBadge(c, i), k) ==>
              i < |Issued(j, c)| && Issued(j, c)[i] == j[k].note.badge
    ensures Revoked(j, c, i) <==> Ever(j, Revokes(c, i))
  {
    if j == [] {
    } else {
      BadgesAreIssued(cfg, Front(j), c, i);
      EverStep(j, IssuesBadge(c, i));
      EverStep(j, Revokes(c, i));
      forall k: nat | Latest(j, IssuesBadge(c, i), k)
        ensures i < |Issued(j, c)| && Issued(j, c)[i] == j[k].note.badge
      {
        LatestStep(j, IssuesBadge(c, i), k);
      }
    }
  }

  lemma {:induction false} LastReceiverOwns(cfg: Config, j: Journal, c: ClassId, i: InstanceId)
    requires History(cfg, j)
    ensures Ever(j, IssuesBadge(c, i)) ==> Ever(j, Hands(c, i))
    ensures forall k: nat :: Latest(j, Hands(c, i), k) && OwnerOf(j, c, i).Some? ==>
              OwnerOf(j, c, i).value == Receiver(j[k].note)
  {
    if j == [] {
    } else {
      LastReceiverOwns(cfg, Front(j), c, i);
      EverStep(j, IssuesBadge(c, i));
      EverStep(j, Hands(c, i));
      forall k: nat | Latest(j, Hands(c, i), k) && OwnerOf(j, c, i).Some?
        ensures OwnerOf(j, c, i).value == Receiver(j[k].note)
      {
        LatestStep(j, Hands(c, i), k);
      }
    }
  }

  /** A badge belongs to whoever received it last, until it is revoked. */
  lemma OwnersAreRead(cfg: Config, j: Journal, c: ClassId, i: InstanceId, who: AccountId)
    requires History(cfg, j)
    ensures BadgeAt(j, c, i).Some? <==> Exists(j, c, i)
    ensures OwnerOf(j, c, i) == Some(who) <==> Holds(j, c, i, who)
  {
    BadgesAreIssued(cfg, j, c, i);
    OwnedExactlyWhile(cfg, j, c, i);
    LastReceiverOwns(cfg, j, c, i);
    LatestExists(j, Hands(c, i));
  }

  /** Badges are issued by the creator of the class, up to the limit. */
  lemma IssueLaw(cfg: Config, j: Journal, origin: Origin, c: ClassId)
    requires History(cfg, j)
    ensures IssueVerdict(cfg, j, origin, c) ==
              if !origin.Signed? then Err(BadOrigin)
              else if !Ever(j, WritesClass(c)) then Err(ClassNotFound)
              else if !IsCreator(j, c, origin.who) then Err(NotIssuer)
              else if Count(j, Issues(c)) >= cfg.maxInstancesPerClass then Err(InstancesLimitReached)
              else Ok
  {
    ClassesAreWritten(j, c);
    BadgesAreIssued(cfg, j, c, 0);
    if origin.Signed? {
      CreatorsAreRead(j, c, origin.who);
    }
  }

  /** They are revoked by the creator of the class, as long as they exist. */
  lemma RevokeLaw(cfg: Config, j: Journal, origin: Origin, c: ClassId, i: InstanceId)
    requires History(cfg, j)
    ensures RevokeVerdict(j, origin, c, i) ==
              if !origin.Signed? then Err(BadOrigin)
              else if !Ever(j, WritesClass(c)) then Err(ClassNotFound)
              else if !IsCreator(j, c, origin.who) then Err(NotClassOwner)
              else if !Exists(j, c, i) then Err(InstanceNotFound)
              else Ok
  {
    ClassesAreWritten(j, c);
    OwnersAreRead(cfg, j, c, i, 0);
    if origin.Signed? {
      CreatorsAreRead(j, c, origin.who);
    }
  }

  /** They are transferred by whoever holds them, if they were issued transferable and not soulbound. */
  lemma TransferLaw(cfg: Config, j: Journal, origin: Origin, c: ClassId, i: InstanceId)
    requires History(cfg, j)
    ensures !origin.Signed? ==> TransferVerdict(j, origin, c, i) == Err(BadOrigin)
    ensures origin.Signed? && !Exists(j, c, i) ==> TransferVerdict(j, origin, c, i) == Err(InstanceNotFound)
    ensures forall k: nat :: origin.Signed? && Exists(j, c, i) && Latest(j, IssuesBadge(c, i), k) ==>
              TransferVerdict(j, origin, c, i) ==
                if !Holds(j, c, i, origin.who) then Err(NotOwner)
                else if j[k].note.badge.soulbound then Err(Soulbound)
                else if !j[k].note.badge.transferable then Err(NotTransferable)
                else Ok
  {
    BadgesAreIssued(cfg, j, c, i);
    OwnersAreRead(cfg, j, c, i, if origin.Signed? then origin.who else 0);
  }

  // ---------------------------------------------------------------------------------------------------
  // Who did it

  /** The account in the note had the right to make it, at that moment. */
  ghost predicate Rightful(cfg: Config, j: Journal, e: Entry) {
    match e.note
    case ClassSeeded(_, _) => true
    case ClassCreated(_, info) => cfg.classCreation(Signed(info.creator))
    case BadgeIssued(c, _, badge) => IsCreator(j, c, badge.issuer)
    case BadgeRevoked(c, i, revoker) => IsCreator(j, c, revoker) && Exists(j, c, i)
    case BadgeTransferred(c, i, from, _) => Holds(j, c, i, from)
  }

  lemma EveryNoteIsRightful(cfg: Config, j: Journal, n: nat)
    requires History(cfg, j) && n < |j|
    ensures Rightful(cfg, j[..n], j[n])
  {
    HistoryPrefix(cfg, j, n);
    var before := j[..n];
    match j[n].note
    case ClassCreated(_, info) => CreateClassLaw(cfg, before, Signed(info.creator));
    case BadgeIssued(c, _, badge) => IssueLaw(cfg, before, Signed(badge.issuer), c);
    case BadgeRevoked(c, i, revoker) => RevokeLaw(cfg, before, Signed(revoker), c, i);
    case BadgeTransferred(c, i, from, _) =>
      OwnersAreRead(cfg, before, c, i, from);
      TransferLaw(cfg, before, Signed(from), c, i);
      BadgesAreIssued(cfg, before, c, i);
      LatestExists(before, IssuesBadge(c, i));
    case _ =>
  }

  /** Every badge that was issued and is gone was revoked by the creator of its class. */
  lemma GoneByItsCreator(cfg: Config, j: Journal, c: ClassId, i: InstanceId) returns (n: nat)
    requires History(cfg, j) && i < |Issued(j, c)| && BadgeAt(j, c, i) == None
    ensures n < |j| && Revokes(c, i)(j[n]) && IsCreator(j[..n], c, j[n].note.revoker)
  {
    BadgesAreIssued(cfg, j, c, i);
    OwnersAreRead(cfg, j, c, i, 0);
    n :| n < |j| && Revokes(c, i)(j[n]);
    EveryNoteIsRightful(cfg, j, n);
  }
}
