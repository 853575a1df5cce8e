/** One record upsert inside an open transaction (backend/internal/records/service.go). */
module Records {
  import opened Wrappers
  import opened Lww
  import opened Tables

  datatype UpsertParams = UpsertParams(
    recordId: RecordId,
    familyId: FamilyId,
    recordType: string,
    userId: UserId,
    ciphertext: bytes,
    stamps: StampMap,
    deletedAt: string,
    parentVersion: int)

  datatype UpsertError = InvalidParentVersion | RecordIdConflict | BadStamp | Infrastructure

  /** The server's state of a record that lost a race. */
  datatype Current = Current(
    blob: bytes, version: int, stamps: StampMap, addedBy: UserId, editedBy: UserId, deletedAt: string)

  datatype UpsertResult =
    | Accepted(version: int, seqNo: int)
    | Conflict(current: Current)
    | Rejected(error: UpsertError)

  /** `unmarshalMap`, with the callers' fallback to an empty map. */
  function Readable(m: MapText): StampMap {
    match m
    case Json(stamps) => stamps
    case NotAMap(_) => map[]
  }

  function NullStr(s: string): Option<string> {
    if s == "" then None else Some(s)
  }

  function Text(s: Option<string>): string {
    match s
    case None => ""
    case Some(t) => t
  }

  /** The row an accepted upsert leaves. The merged map is used for validation only:
      the incoming map is what gets stored. */
  function RowAfter(db: Db, p: UpsertParams): Row
    requires p.familyId in db.nextSeq
  {
    match FindRow(db, p.recordId, p.familyId)
    case None =>
      Row(p.familyId, p.recordType, db.nextBlob, 1, p.userId, p.userId,
          Json(p.stamps), NullStr(p.deletedAt), db.nextSeq[p.familyId])
    case Some(row) =>
      row.(blob := db.nextBlob, version := row.version + 1, editedBy := p.userId,
           stamps := Json(p.stamps), deletedAt := NullStr(p.deletedAt), seqNo := db.nextSeq[p.familyId])
  }

  /** The tables after an accepted upsert, usage counter aside. */
  function After(db: Db, p: UpsertParams): Db
    requires p.familyId in db.nextSeq
  {
    PutRow(TakeSeq(AddBlob(db, p.familyId, p.ciphertext), p.familyId), p.recordId, RowAfter(db, p))
  }

  /** The write itself meets every foreign key and index. */
  predicate Storable(db: Db, p: UpsertParams) {
    && p.familyId in db.usage && p.familyId in db.nextSeq && p.userId in db.users
    && SeqIsFree(db, p.recordId, p.familyId, db.nextSeq[p.familyId])
  }

  /** What `Upsert` answers, from the state before it. */
  function Decide(db: Db, p: UpsertParams): UpsertResult {
    match FindRow(db, p.recordId, p.familyId)
    case None =>
      if p.recordId in db.records then Rejected(RecordIdConflict)
      else if p.parentVersion != 0 then Rejected(InvalidParentVersion)
      else if !Mergeable(map[], p.stamps) then Rejected(BadStamp)
      else if !Storable(db, p) then Rejected(Infrastructure)
      else Accepted(1, db.nextSeq[p.familyId])
    case Some(row) =>
      if p.parentVersion != row.version then
        if row.blob !in db.blobs then Rejected(Infrastructure)
        else Conflict(Current(db.blobs[row.blob].ciphertext, row.version, Readable(row.stamps),
                              row.addedBy, row.editedBy, Text(row.deletedAt)))
      else if !Mergeable(Readable(row.stamps), p.stamps) then Rejected(BadStamp)
      else if !Storable(db, p) then Rejected(Infrastructure)
      else Accepted(row.version + 1, db.nextSeq[p.familyId])
  }

  /** `CheckQuota` (backend/internal/records/quota.go) */
  function OverQuota(currentBytes: int, incomingBytes: int): bool {
    currentBytes + incomingBytes > QUOTA_MAX_BYTES
  }

  function Charge(db: Db, fam: FamilyId, n: int): Db
    requires fam in db.usage
  {
    db.(usage := db.usage[fam := db.usage[fam] + n])
  }

  method Upsert(d: Database, p: UpsertParams) returns (r: UpsertResult)
    modifies d
    ensures r == Decide(old(d.State()), p)
    ensures r.Accepted? ==> p.familyId in old(d.State()).nextSeq && d.State() == After(old(d.State()), p)
    ensures !r.Accepted? && r != Rejected(Infrastructure) ==> d.State() == old(d.State())
  {
    var existing := FindRow(d.State(), p.recordId, p.familyId);
    if existing.None? {
      if p.recordId in d.records { return Rejected(RecordIdConflict); }
      if p.parentVersion != 0 { return Rejected(InvalidParentVersion); }
      var merge := MergeUpdatedAtMap(map[], p.stamps);
      if merge.Failure? { return Rejected(BadStamp); }
      var blobId := d.InsertBlob(p.familyId, p.ciphertext);
      if blobId.None? { return Rejected(Infrastructure); }
      var seqNo := d.AdvanceFamilySeq(p.familyId);
      if seqNo.None? { return Rejected(Infrastructure); }
      var inserted := d.InsertRecordMeta(p.recordId,
        Row(p.familyId, p.recordType, blobId.value, 1, p.userId, p.userId,
            Json(p.stamps), NullStr(p.deletedAt), seqNo.value));
      if !inserted { return Rejected(Infrastructure); }
      return Accepted(1, seqNo.value);
    }
    var row := existing.value;
    if p.parentVersion != row.version {
      if row.blob !in d.blobs { return Rejected(Infrastructure); }
      return Conflict(Current(d.blobs[row.blob].ciphertext, row.version, Readable(row.stamps),
                              row.addedBy, row.editedBy, Text(row.deletedAt)));
    }
    var merge := MergeUpdatedAtMap(Readable(row.stamps), p.stamps);
    if merge.Failure? { return Rejected(BadStamp); }
    var blobId := d.InsertBlob(p.familyId, p.ciphertext);
    if blobId.None? { return Rejected(Infrastructure); }
    var seqNo := d.AdvanceFamilySeq(p.familyId);
    if seqNo.None? { return Rejected(Infrastructure); }
    var newVersion := row.version + 1;
    var updated := d.UpdateRecordMeta(p.recordId, p.familyId, blobId.value, newVersion, p.userId,
                                      Json(p.stamps), NullStr(p.deletedAt), seqNo.value);
    if !updated { return Rejected(Infrastructure); }
    return Accepted(newVersion, seqNo.value);
  }
}
