/**
Badge classes and badges, seen through the pallet's history only.

A journal note is the pallet's event; `ClassCreated` and `BadgeIssued` also hold the record as first written, and
`BadgeRevoked` the account that called.
*/
module BadgesHistory {
  import opened Common

  type ClassId = u32
  type InstanceId = u64

  datatype ClassInfo = ClassInfo(
    creator: AccountId,
    club: Option<ClubId>,
    metadataHash: Hash,
    defaultTransferable: bool,
    defaultSoulbound: bool,
    instancesCount: u32)

  datatype BadgeInstance = BadgeInstance(
    owner: AccountId,
    issuedAt: Moment,
    issuer: AccountId,
    uriHash: Hash,
    transferable: bool,
    soulbound: bool)

  datatype Config = Config(classCreation: Origin -> bool, maxClasses: u32, maxInstancesPerClass: u32)

  datatype Error =
    | BadOrigin | ClassNotFound | InstanceNotFound | NotIssuer | NotClassOwner | NotOwner | NotTransferable
    | Soulbound | ClassLimitReached | InstancesLimitReached

  datatype Verdict = Ok | Err(error: Error)

  datatype Note =
    | ClassSeeded(classId: ClassId, info: ClassInfo)
    | ClassCreated(classId: ClassId, info: ClassInfo)
    | BadgeIssued(classId: ClassId, instance: InstanceId, badge: BadgeInstance)
    | BadgeRevoked(classId: ClassId, instance: InstanceId, revoker: AccountId)
    | BadgeTransferred(classId: ClassId, instance: InstanceId, from: AccountId, to: AccountId)

  datatype Entry = Entry(now: Moment, note: Note)

  type Journal = seq<Entry>

  /** The bound of the instance index of a class. */
  const MAX_INDEXED := 1024

  // ---------------------------------------------------------------------------------------------------
  // What the journal says

  /** The classes as first written. */
  function Classes(j: Journal): map<ClassId, ClassInfo> {
    if j == [] then map[] else
      match Last(j).note
      case ClassSeeded(c, info) => Classes(Front(j))[c := info]
      case ClassCreated(c, info) => Classes(Front(j))[c := info]
      case _ => Classes(Front(j))
  }

  function NextClassId(j: Journal): ClassId {
    if j == [] then 0 else
      var next := NextClassId(Front(j));
      match Last(j).note
      case ClassSeeded(c, _) => if c >= next then SatAdd32(c, 1) else next
      case ClassCreated(c, _) => SatAdd32(c, 1)
      case _ => next
  }

  /** The badges of a class as first issued, by instance id. */
  function Issued(j: Journal, c: ClassId): seq<BadgeInstance> {
    if j == [] then []
    else if Last(j).note.BadgeIssued? && Last(j).note.classId == c then Issued(Front(j), c) + [Last(j).note.badge]
    else Issued(Front(j), c)
  }

  /** Who owns a badge, from the class, instance, sender and receiver that the events show. */
  function OwnerOf(j: Journal, c: ClassId, i: InstanceId): Option<AccountId> {
    if j == [] then None else
      match Last(j).note
      case BadgeIssued(c', i', badge) => if (c', i') == (c, i) then Some(badge.owner) else OwnerOf(Front(j), c, i)
      case BadgeTransferred(c', i', _, to) => if (c', i') == (c, i) then Some(to) else OwnerOf(Front(j), c, i)
      case BadgeRevoked(c', i', _) => if (c', i') == (c, i) then None else OwnerOf(Front(j), c, i)
      case _ => OwnerOf(Front(j), c, i)
  }

  predicate Revoked(j: Journal, c: ClassId, i: InstanceId) {
    && j != []
    && (|| Revoked(Front(j), c, i)
        || (Last(j).note.BadgeRevoked? && Last(j).note.classId == c && Last(j).note.instance == i))
  }

  /** The badge now: as issued, in the hands of its present owner. */
  function BadgeAt(j: Journal, c: ClassId, i: InstanceId): Option<BadgeInstance> {
    if i < |Issued(j, c)| && OwnerOf(j, c, i).Some?
    then Some(Issued(j, c)[i].(owner := OwnerOf(j, c, i).value))
    else None
  }

  // ---------------------------------------------------------------------------------------------------
  // Verdicts

  function CreateClassVerdict(cfg: Config, j: Journal, origin: Origin): Verdict {
    if !cfg.classCreation(origin) || !origin.Signed? then Err(BadOrigin)
    else if NextClassId(j) >= cfg.maxClasses then Err(ClassLimitReached)
    else Ok
  }

  function IssueVerdict(cfg: Config, j: Journal, origin: Origin, c: ClassId): Verdict {
    if !origin.Signed? then Err(BadOrigin)
    else if c !in Classes(j) then Err(ClassNotFound)
    else if origin.who != Classes(j)[c].creator then Err(NotIssuer)
    else if |Issued(j, c)| >= cfg.maxInstancesPerClass then Err(InstancesLimitReached)
    else Ok
  }

  function RevokeVerdict(j: Journal, origin: Origin, c: ClassId, i: InstanceId): Verdict {
    if !origin.Signed? then Err(BadOrigin)
    else if c !in Classes(j) then Err(ClassNotFound)
    else if origin.who != Classes(j)[c].creator then Err(NotClassOwner)
    else if BadgeAt(j, c, i).None? then Err(InstanceNotFound)
    else Ok
  }

  function TransferVerdict(j: Journal, origin: Origin, c: ClassId, i: InstanceId): Verdict {
    if !origin.Signed? then Err(BadOrigin)
    else if BadgeAt(j, c, i).None? then Err(InstanceNotFound)
    else
      var badge := BadgeAt(j, c, i).value;
      if badge.owner != origin.who then Err(NotOwner)
      else if badge.soulbound then Err(Soulbound)
      else if !badge.transferable then Err(NotTransferable)
      else Ok
  }

  // ---------------------------------------------------------------------------------------------------
  // Histories: genesis classes first, then calls that the journal before them allows

  predicate Seeding(j: Journal) {
    j == [] || (Seeding(Front(j)) && Last(j).note.ClassSeeded?)
  }

  ghost predicate Admitted(cfg: Config, j: Journal, e: Entry) {
    && (j != [] ==> Last(j).now <= e.now)
    && match e.note
       case ClassSeeded(_, _) => Seeding(j) && e.now == 0
       case ClassCreated(c, info) =>
         && c == NextClassId(j)
         && CreateClassVerdict(cfg, j, Signed(info.creator)) == Ok
         && info.instancesCount == 0
       case BadgeIssued(c, i, badge) =>
         && i == |Issued(j, c)|
         && IssueVerdict(cfg, j, Signed(badge.issuer), c) == Ok
         && badge.issuedAt == e.now
       case BadgeRevoked(c, i, revoker) => RevokeVerdict(j, Signed(revoker), c, i) == Ok
       case BadgeTransferred(c, i, from, _) => TransferVerdict(j, Signed(from), c, i) == Ok
  }

  ghost predicate History(cfg: Config, j: Journal) {
    j == [] || (History(cfg, Front(j)) && Admitted(cfg, Front(j), Last(j)))
  }
}
