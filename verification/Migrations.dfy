/** Moving a solo family's records into another family
    (`MigrateSolo`, backend/internal/family/service.go). */
module Migrations {
  import opened Wrappers
  import opened Sequences
  import opened Tables
  import opened Records
  import opened Invariants

  /** One record of the request; the handler turns an empty deletion time into NULL. */
  datatype MigrateRecord = MigrateRecord(
    recordId: RecordId,
    recordType: string,
    blob: bytes,
    stamps: MapText,
    addedBy: UserId,
    editedBy: UserId,
    deletedAt: string)

  datatype MigrateParams = MigrateParams(
    migrationId: string,
    caller: UserId,
    callerEmail: string,
    source: FamilyId,
    target: FamilyId,
    records: seq<MigrateRecord>)

  datatype MigrateResult = MigrateResult(committedAt: string, recordCount: nat)

  datatype MigrateError = SourceSameAsTarget | NotInTargetFamily | IdConflict | OverTheQuota | MigrateFailed

  // ---- specification ----

  function MovedRow(db: Db, source: FamilyId, target: FamilyId, rec: MigrateRecord): (row: Row)
    requires target in db.nextSeq
    ensures row.family == target && row.seqNo == db.nextSeq[target]
  {
    match FindRow(db, rec.recordId, source)
    case Some(row) =>
      row.(family := target, blob := db.nextBlob, version := row.version + 1, editedBy := rec.editedBy,
           stamps := rec.stamps, deletedAt := NullStr(rec.deletedAt), seqNo := db.nextSeq[target])
    case None =>
      Row(target, rec.recordType, db.nextBlob, 1, rec.addedBy, rec.editedBy, rec.stamps, NullStr(rec.deletedAt),
          db.nextSeq[target])
  }

  /** Foreign keys and the sequence index for one moved record. */
  predicate MoveFits(db: Db, source: FamilyId, target: FamilyId, rec: MigrateRecord)
    requires target in db.nextSeq
  {
    && rec.editedBy in db.users
    && SeqIsFree(db, rec.recordId, target, db.nextSeq[target])
    && (FindRow(db, rec.recordId, source).None? ==> rec.addedBy in db.users)
  }

  function Moved(db: Db, source: FamilyId, target: FamilyId, rec: MigrateRecord): Db
    requires target in db.nextSeq
  {
    WriteNext(AddBlob(db, target, rec.blob), rec.recordId, MovedRow(db, source, target, rec))
  }

  function MoveOne(db: Db, source: FamilyId, target: FamilyId, rec: MigrateRecord): Result<Db, MigrateError> {
    if target !in db.usage || target !in db.nextSeq then Failure(MigrateFailed)
    else if FindRow(db, rec.recordId, source).None? && rec.recordId in db.records then Failure(IdConflict)
    else if !MoveFits(db, source, target, rec) then Failure(MigrateFailed)
    else Success(Moved(db, source, target, rec))
  }

  function MoveAll(db: Db, source: FamilyId, target: FamilyId, recs: seq<MigrateRecord>): Result<Db, MigrateError> {
    if recs == [] then Success(db)
    else
      match MoveAll(db, source, target, recs[..|recs| - 1])
      case Failure(e) => Failure(e)
      case Success(before) => MoveOne(before, source, target, recs[|recs| - 1])
  }

  function TotalBytes(recs: seq<MigrateRecord>): nat {
    if recs == [] then 0 else TotalBytes(recs[..|recs| - 1]) + |recs[|recs| - 1].blob|
  }

  /** `GetPendingInviteForEmail`: the column compares with COLLATE NOCASE. */
  predicate IsInvited(db: Db, fam: FamilyId, email: string) {
    exists i :: i in db.invites && i.0 == fam && NoCase(i.1) == NoCase(email)
  }

  predicate MayEnter(db: Db, p: MigrateParams) {
    (p.target, p.caller) in db.members || IsInvited(db, p.target, p.callerEmail)
  }

  /** What remains to be done once the records are in place. */
  function Commit(db: Db, p: MigrateParams, now: string): Result<Db, MigrateError> {
    var total := TotalBytes(p.records);
    if total > 0 && p.target !in db.usage then Failure(MigrateFailed)
    else if total > 0 && OverQuota(db.usage[p.target], total) then Failure(OverTheQuota)
    else if p.caller !in db.users then Failure(MigrateFailed)
    else
      var charged := if total > 0 then Charge(db, p.target, total) else db;
      Success(charged.(members := db.members - {(p.source, p.caller)},
                       migrations := db.migrations[p.migrationId := Migration(p.caller, now, |p.records|)]))
  }

  function Migrated(db: Db, p: MigrateParams, now: string): Result<(Db, MigrateResult), MigrateError> {
    if p.source == p.target then Failure(SourceSameAsTarget)
    else if p.migrationId in db.migrations then
      var m := db.migrations[p.migrationId];
      if m.user != p.caller then Failure(NotInTargetFamily)
      else Success((db, MigrateResult(m.committedAt, m.recordCount)))
    else if !MayEnter(db, p) then Failure(NotInTargetFamily)
    else
      match MoveAll(db, p.source, p.target, p.records)
      case Failure(e) => Failure(e)
      case Success(moved) =>
        match Commit(moved, p, now)
        case Failure(e) => Failure(e)
        case Success(after) => Success((after, MigrateResult(now, |p.records|)))
  }

  // ---- the transaction ----

  /** The loop body. */
  method MoveRecord(d: Database, source: FamilyId, target: FamilyId, rec: MigrateRecord)
    returns (error: Option<MigrateError>)
    modifies d
    ensures match MoveOne(old(d.State()), source, target, rec)
            case Failure(e) => error == Some(e)
            case Success(after) => error == None && d.State() == after
  {
    var blobId := d.InsertBlob(target, rec.blob);
    if blobId.None? { return Some(MigrateFailed); }
    var seqNo := d.AdvanceFamilySeq(target);
    if seqNo.None? { return Some(MigrateFailed); }
    var existing := FindRow(d.State(), rec.recordId, source);
    var ok: bool;
    if existing.None? {
      if rec.recordId in d.records { return Some(IdConflict); }
      ok := d.InsertRecordMeta(rec.recordId,
        Row(target, rec.recordType, blobId.value, 1, rec.addedBy, rec.editedBy, rec.stamps, NullStr(rec.deletedAt),
            seqNo.value));
    } else {
      ok := d.UpdateRecordMetaFamily(rec.recordId, source, target, blobId.value, existing.value.version + 1,
                                     rec.editedBy, rec.stamps, NullStr(rec.deletedAt), seqNo.value);
    }
    return if ok then None else Some(MigrateFailed);
  }

  /** The loop; `totalBytes` is what the target will be charged. */
  method MoveRecords(d: Database, source: FamilyId, target: FamilyId, recs: seq<MigrateRecord>)
    returns (r: Result<nat, MigrateError>)
    modifies d
    ensures match MoveAll(old(d.State()), source, target, recs)
            case Failure(e) => r == Failure(e)
            case Success(moved) => r == Success(TotalBytes(recs)) && d.State() == moved
  {
    hide MoveOne;
    ghost var begin := d.State();
    var totalBytes := 0;
    var i := 0;
    while i < |recs|
      invariant 0 <= i <= |recs|
      invariant MoveAll(begin, source, target, recs[..i]) == Success(d.State())
      invariant totalBytes == TotalBytes(recs[..i])
    {
      assert recs[..i + 1][..i] == recs[..i];
      var error := MoveRecord(d, source, target, recs[i]);
      if error.Some? {
        FailureSticks(begin, source, target, recs, i + 1);
        return Failure(error.value);
      }
      totalBytes := totalBytes + |recs[i].blob|;
      i := i + 1;
    }
    assert recs[..i] == recs;
    return Success(totalBytes);
  }

  /** Quota, usage counter, membership, and the record of the migration. */
  method CommitMigration(d: Database, p: MigrateParams, totalBytes: nat, now: string)
    returns (error: Option<MigrateError>)
    requires totalBytes == TotalBytes(p.records)
    modifies d
    ensures match Commit(old(d.State()), p, now)
            case Failure(e) => error == Some(e)
            case Success(after) => error == None && d.State() == after
  {
    if totalBytes > 0 {
      if p.target !in d.usage { return Some(MigrateFailed); }
      if OverQuota(d.usage[p.target], totalBytes) { return Some(OverTheQuota); }
    }
    if totalBytes > 0 {
      d.usage := d.usage[p.target := d.usage[p.target] + totalBytes];
    }
    if p.caller !in d.users { return Some(MigrateFailed); }
    d.members := d.members - {(p.source, p.caller)};
    d.migrations := d.migrations[p.migrationId := Migration(p.caller, now, |p.records|)];
    return None;
  }

  method MigrateSolo(d: Database, p: MigrateParams, now: string) returns (r: Result<MigrateResult, MigrateError>)
    modifies d
    ensures match Migrated(old(d.State()), p, now)
            case Failure(e) => r == Failure(e) && d.State() == old(d.State())
            case Success((after, result)) => r == Success(result) && d.State() == after
  {
    hide MoveAll, Commit, NoCase;
    if p.source == p.target { return Failure(SourceSameAsTarget); }
    var begin := d.State();
    if p.migrationId in d.migrations {
      var existing := d.migrations[p.migrationId];
      if existing.user != p.caller { return Failure(NotInTargetFamily); }
      return Success(MigrateResult(existing.committedAt, existing.recordCount));
    }
    if (p.target, p.caller) !in d.members {
      if !IsInvited(d.State(), p.target, p.callerEmail) { return Failure(NotInTargetFamily); }
    }
    var totalBytes := MoveRecords(d, p.source, p.target, p.records);
    if totalBytes.Failure? { d.Rollback(begin); return Failure(totalBytes.error); }
    var error := CommitMigration(d, p, totalBytes.value, now);
    if error.Some? { d.Rollback(begin); return Failure(error.value); }
    return Success(MigrateResult(now, |p.records|));
  }

  lemma {:induction false} FailureSticks(db: Db, source: FamilyId, target: FamilyId, recs: seq<MigrateRecord>, i: nat)
    requires i <= |recs| && MoveAll(db, source, target, recs[..i]).Failure?
    ensures MoveAll(db, source, target, recs) == MoveAll(db, source, target, recs[..i])
  {
    if i == |recs| {
      assert recs[..i] == recs;
    } else {
      assert recs[..|recs| - 1][..i] == recs[..i];
      FailureSticks(db, source, target, recs[..|recs| - 1], i);
    }
  }

  // ---- what a committed migration has done ----

  function RecordIdOf(rec: MigrateRecord): RecordId {
    rec.recordId
  }

  ghost function RecordIds(recs: seq<MigrateRecord>): set<RecordId> {
    Image(recs, RecordIdOf)
  }

  ghost predicate DistinctIds(recs: seq<MigrateRecord>) {
    forall i, j :: 0 <= i < j < |recs| ==> recs[i].recordId != recs[j].recordId
  }

  /** Record `rec` sits in the target family at `seqNo`, with the content sent. */
  ghost predicate Arrived(db: Db, after: Db, source: FamilyId, target: FamilyId, rec: MigrateRecord, seqNo: int) {
    && rec.recordId in after.records
    && var row := after.records[rec.recordId];
    && row.family == target && row.seqNo == seqNo
    && row.blob in after.blobs && row.blob >= db.nextBlob && after.blobs[row.blob] == Blob(target, rec.blob)
    && row.editedBy == rec.editedBy && row.stamps == rec.stamps && row.deletedAt == NullStr(rec.deletedAt)
    && if rec.recordId in db.records then
         var before := db.records[rec.recordId];
         && before.family == source
         && row.recordType == before.recordType && row.addedBy == before.addedBy
         && row.version == before.version + 1
       else
         row.recordType == rec.recordType && row.addedBy == rec.addedBy && row.version == 1
  }

  ghost predicate AllArrived(db: Db, after: Db, source: FamilyId, target: FamilyId,
          recs: seq<MigrateRecord>, base: int)
  {
    forall i :: 0 <= i < |recs| ==> Arrived(db, after, source, target, recs[i], base + i)
  }

  /** Rows not listed, counters of other families and all other tables are untouched. */
  ghost predicate OthersUntouched(db: Db, after: Db, target: FamilyId, recs: seq<MigrateRecord>) {
    && after.records.Keys == db.records.Keys + RecordIds(recs)
    && (forall r :: r in db.records && r !in RecordIds(recs) ==> after.records[r] == db.records[r])
    && (forall b :: b in db.blobs && b < db.nextBlob ==> b in after.blobs && after.blobs[b] == db.blobs[b])
    && after.nextBlob == db.nextBlob + |recs|
    && after == db.(records := after.records, blobs := after.blobs, nextBlob := after.nextBlob,
                    nextSeq := after.nextSeq)
    && (recs == [] ==> after.nextSeq == db.nextSeq)
    && (recs != [] ==> target in db.nextSeq && after.nextSeq == db.nextSeq[target := db.nextSeq[target] + |recs|])
  }

  ghost predicate IsMoved(db: Db, after: Db, source: FamilyId, target: FamilyId, recs: seq<MigrateRecord>) {
    && DistinctIds(recs)
    && OthersUntouched(db, after, target, recs)
    && (recs != [] ==> AllArrived(db, after, source, target, recs, db.nextSeq[target]))
  }

  /** A record that has arrived is the target's, so listing it again is a conflict. */
  lemma NotListedTwice(db: Db, before: Db, source: FamilyId, target: FamilyId,
          front: seq<MigrateRecord>, rec: MigrateRecord)
    requires source != target && target in db.nextSeq
    requires front != [] ==> AllArrived(db, before, source, target, front, db.nextSeq[target])
    requires MoveOne(before, source, target, rec).Success?
    ensures rec.recordId !in RecordIds(front)
  {
  }

  lemma UntouchedOneMore(db: Db, before: Db, source: FamilyId, target: FamilyId,
          front: seq<MigrateRecord>, rec: MigrateRecord)
    requires OthersUntouched(db, before, target, front)
    requires MoveOne(before, source, target, rec).Success?
    ensures OthersUntouched(db, MoveOne(before, source, target, rec).value, target, front + [rec])
  {
    var after := MoveOne(before, source, target, rec).value;
    ImageSnoc(front, rec, RecordIdOf);
    assert after.nextSeq == db.nextSeq[target := db.nextSeq[target] + |front + [rec]|];
    assert after.records == before.records[rec.recordId := MovedRow(before, source, target, rec)];
  }

  ghost predicate BlobsBelow(db: Db) {
    forall b :: b in db.blobs ==> b < db.nextBlob
  }

  lemma BlobsStayBelow(before: Db, source: FamilyId, target: FamilyId, rec: MigrateRecord)
    requires BlobsBelow(before) && MoveOne(before, source, target, rec).Success?
    ensures BlobsBelow(MoveOne(before, source, target, rec).value)
  {
  }

  lemma MoveOneMore(db: Db, before: Db, source: FamilyId, target: FamilyId,
          front: seq<MigrateRecord>, rec: MigrateRecord)
    requires source != target && BlobsBelow(before)
    requires IsMoved(db, before, source, target, front)
    requires MoveOne(before, source, target, rec).Success?
    ensures IsMoved(db, MoveOne(before, source, target, rec).value, source, target, front + [rec])
  {
    var recs := front + [rec];
    assert target in db.nextSeq;
    NotListedTwice(db, before, source, target, front, rec);
    UntouchedOneMore(db, before, source, target, front, rec);
    var base, after := db.nextSeq[target], MoveOne(before, source, target, rec).value;
    assert before.nextSeq[target] == base + |front|;
    hide MoveOne, Arrived, Moved, OthersUntouched;
    assert forall i :: 0 <= i < |front| ==> front[i].recordId in RecordIds(front);
    IsMovedSnoc(db, before, after, source, target, front, rec, base);
  }

  lemma IsMovedSnoc(db: Db, before: Db, after: Db, source: FamilyId, target: FamilyId,
                    front: seq<MigrateRecord>, rec: MigrateRecord, base: int)
    requires source != target && BlobsBelow(before) && target in db.nextSeq && base == db.nextSeq[target]
    requires IsMoved(db, before, source, target, front) && rec.recordId !in RecordIds(front)
    requires MoveOne(before, source, target, rec) == Success(after)
    requires OthersUntouched(db, after, target, front + [rec])
    ensures IsMoved(db, after, source, target, front + [rec])
  {
    hide OthersUntouched, MoveOne, BlobsBelow, AllArrived;
    DistinctSnoc(front, rec);
    LastArrives(db, before, after, source, target, front, rec, base);
    AllArrivedSnoc(db, before, after, source, target, front, rec, base);
  }

  lemma DistinctSnoc(front: seq<MigrateRecord>, rec: MigrateRecord)
    requires DistinctIds(front) && rec.recordId !in RecordIds(front)
    ensures DistinctIds(front + [rec])
  {
  }

  lemma AllArrivedSnoc(db: Db, before: Db, after: Db, source: FamilyId, target: FamilyId,
                       front: seq<MigrateRecord>, rec: MigrateRecord, base: int)
    requires BlobsBelow(before) && MoveOne(before, source, target, rec) == Success(after)
    requires rec.recordId !in RecordIds(front)
    requires front != [] ==> AllArrived(db, before, source, target, front, base)
    requires Arrived(db, after, source, target, rec, base + |front|)
    ensures AllArrived(db, after, source, target, front + [rec], base)
  {
  }

  lemma LastArrives(db: Db, before: Db, after: Db, source: FamilyId, target: FamilyId,
                    front: seq<MigrateRecord>, rec: MigrateRecord, base: int)
    requires target in db.nextSeq && base == db.nextSeq[target]
    requires OthersUntouched(db, before, target, front) && rec.recordId !in RecordIds(front)
    requires MoveOne(before, source, target, rec) == Success(after)
    ensures Arrived(db, after, source, target, rec, base + |front|)
  {
  }

  /** Every listed record arrives, each at the next sequence number of the target. */
  lemma {:induction false} MoveAllEffect(db: Db, source: FamilyId, target: FamilyId, recs: seq<MigrateRecord>)
    requires source != target && BlobsOk(db)
    requires MoveAll(db, source, target, recs).Success?
    ensures IsMoved(db, MoveAll(db, source, target, recs).value, source, target, recs)
    ensures BlobsBelow(MoveAll(db, source, target, recs).value)
  {
    hide MoveOne, IsMoved, BlobsOk, BlobsBelow;
    if recs == [] {
      NothingMoved(db, source, target);
    } else {
      var front, rec := recs[..|recs| - 1], recs[|recs| - 1];
      MoveAllEffect(db, source, target, front);
      BlobsStayBelow(MoveAll(db, source, target, front).value, source, target, rec);
      MoveOneMore(db, MoveAll(db, source, target, front).value, source, target, front, rec);
      assert recs == front + [rec];
    }
  }

  lemma NothingMoved(db: Db, source: FamilyId, target: FamilyId)
    requires BlobsOk(db)
    ensures IsMoved(db, db, source, target, []) && BlobsBelow(db)
  {
  }

  /** The tables of a committed migration with the bookkeeping columns put back. */
  ghost function RecordsOnly(db: Db, after: Db): Db {
    after.(usage := db.usage, members := db.members, migrations := db.migrations)
  }

  /** A first migration that succeeds: every listed record is in the target family,
      in order, at fresh sequence numbers; the caller has left the source; the
      target is charged; no row or counter of a third family has changed. */
  lemma MigrationEffect(db: Db, p: MigrateParams, now: string)
    requires BlobsOk(db) && p.migrationId !in db.migrations
    requires Migrated(db, p, now).Success?
    ensures var after := Migrated(db, p, now).value.0;
            && IsMoved(db, RecordsOnly(db, after), p.source, p.target, p.records)
            && (p.source, p.caller) !in after.members
            && (forall m :: m in db.members && m != (p.source, p.caller) ==> m in after.members)
            && (forall f :: f in db.usage && f != p.target ==> f in after.usage && after.usage[f] == db.usage[f])
            && (p.target in db.usage ==> after.usage[p.target] == db.usage[p.target] + TotalBytes(p.records))
            && (forall f :: f in db.nextSeq && f != p.target ==>
                  f in after.nextSeq && after.nextSeq[f] == db.nextSeq[f])
            && (forall r :: r in db.records && db.records[r].family != p.source ==>
                  r in after.records && after.records[r] == db.records[r])
            && Migrated(db, p, now).value.1 == MigrateResult(now, |p.records|)
  {
    hide MoveAll, IsMoved, TotalBytes;
    var moved := MoveAll(db, p.source, p.target, p.records).value;
    MoveAllEffect(db, p.source, p.target, p.records);
    MovedFrame(db, moved, p.source, p.target, p.records);
    assert RecordsOnly(db, Migrated(db, p, now).value.0) == moved;
    forall r | r in db.records && db.records[r].family != p.source
      ensures r in moved.records && moved.records[r] == db.records[r]
    {
      ListedAreTheSources(db, moved, p.source, p.target, p.records, r);
    }
  }

  lemma MovedFrame(db: Db, after: Db, source: FamilyId, target: FamilyId, recs: seq<MigrateRecord>)
    requires IsMoved(db, after, source, target, recs)
    ensures after.usage == db.usage && after.members == db.members && after.migrations == db.migrations
    ensures forall f :: f in db.nextSeq && f != target ==> f in after.nextSeq && after.nextSeq[f] == db.nextSeq[f]
    ensures forall r :: r in db.records && r !in RecordIds(recs) ==>
              r in after.records && after.records[r] == db.records[r]
  {
  }

  /** A record of another family is not among the moved ones. */
  lemma ListedAreTheSources(db: Db, after: Db, source: FamilyId, target: FamilyId, recs: seq<MigrateRecord>,
                            r: RecordId)
    requires IsMoved(db, after, source, target, recs)
    requires r in db.records && db.records[r].family != source
    ensures r !in RecordIds(recs)
  {
  }

  /** The record is the source family's own, or new with an author who exists; its
      editor exists. */
  predicate FitsIn(db: Db, source: FamilyId, rec: MigrateRecord) {
    && rec.editedBy in db.users
    && if rec.recordId in db.records then db.records[rec.recordId].family == source else rec.addedBy in db.users
  }

  /** Each id is listed once, and each record fits. */
  ghost predicate Movable(db: Db, source: FamilyId, recs: seq<MigrateRecord>) {
    DistinctIds(recs) && forall i :: 0 <= i < |recs| ==> FitsIn(db, source, recs[i])
  }

  /** One moved record keeps the structure, is new to every reader of the target,
      and adds its bytes to the target's blobs. */
  lemma MoveOneKeeps(db: Db, source: FamilyId, target: FamilyId, rec: MigrateRecord)
    requires Structured(db) && MoveOne(db, source, target, rec).Success?
    ensures var after := MoveOne(db, source, target, rec).value;
            && Structured(after) && Follows(db, after)
            && after.usage == db.usage && after.nextSeq.Keys == db.nextSeq.Keys && after.users == db.users
            && forall f :: Stored(after, f) == Stored(db, f) + if f == target then |rec.blob| else 0
  {
    var mid := AddBlob(db, target, rec.blob);
    var row := MovedRow(db, source, target, rec);
    AddBlobKeeps(db, target, rec.blob);
    if rec.recordId in db.records { assert RowOk(db, db.records[rec.recordId]); }
    hide Structured, Follows, RowOk;
    assert IsNextWrite(mid, rec.recordId, row);
    WriteNextKeeps(mid, rec.recordId, row);
    FollowsTransitive(db, mid, WriteNext(mid, rec.recordId, row));
    forall f ensures Stored(WriteNext(mid, rec.recordId, row), f)
                  == Stored(db, f) + if f == target then |rec.blob| else 0
    {
      AddBlobAddsBytes(db, target, rec.blob, f);
    }
  }

  lemma {:induction false} MoveAllKeeps(db: Db, source: FamilyId, target: FamilyId, recs: seq<MigrateRecord>)
    requires Structured(db) && MoveAll(db, source, target, recs).Success?
    ensures var after := MoveAll(db, source, target, recs).value;
            && Structured(after) && Follows(db, after)
            && after.usage == db.usage && after.nextSeq.Keys == db.nextSeq.Keys && after.users == db.users
            && forall f :: Stored(after, f) == Stored(db, f) + if f == target then TotalBytes(recs) else 0
  {
    hide MoveOne, Stored;
    if recs == [] {
      FollowsReflexive(db);
    } else {
      var front, rec := recs[..|recs| - 1], recs[|recs| - 1];
      var before := MoveAll(db, source, target, front).value;
      hide Structured, Follows;
      MoveAllKeeps(db, source, target, front);
      MoveOneKeeps(before, source, target, rec);
      FollowsTransitive(db, before, MoveOne(before, source, target, rec).value);
    }
  }

  /** The unique sequence index never stands in a record's way. */
  lemma MoveOneSucceedsIff(db: Db, source: FamilyId, target: FamilyId, rec: MigrateRecord)
    requires Structured(db)
    ensures MoveOne(db, source, target, rec).Success? <==> target in db.usage && FitsIn(db, source, rec)
  {
  }

  /** The records move exactly when there are none, or the target exists, each id is
      listed once, and each record fits. */
  lemma {:induction false} MoveAllSucceedsIff(db: Db, source: FamilyId, target: FamilyId, recs: seq<MigrateRecord>)
    requires Structured(db) && source != target
    ensures MoveAll(db, source, target, recs).Success? <==>
              recs == [] || (target in db.usage && Movable(db, source, recs))
  {
    hide MoveOne, Movable, Structured;
    if recs != [] {
      var front, rec := recs[..|recs| - 1], recs[|recs| - 1];
      assert recs == front + [rec];
      FrontMovable(db, source, front, rec);
      NoneMovable(db, source);
      MoveAllSucceedsIff(db, source, target, front);
      if MoveAll(db, source, target, front).Success? { LastMoves(db, source, target, front, rec); }
    }
  }

  lemma NoneMovable(db: Db, source: FamilyId)
    ensures Movable(db, source, [])
  {
  }

  lemma LastMoves(db: Db, source: FamilyId, target: FamilyId, front: seq<MigrateRecord>, rec: MigrateRecord)
    requires Structured(db) && source != target
    requires MoveAll(db, source, target, front).Success? && Movable(db, source, front)
    ensures MoveOne(MoveAll(db, source, target, front).value, source, target, rec).Success?
       <==> target in db.usage && Movable(db, source, front + [rec])
  {
    hide MoveOne, MoveAll, Movable, IsMoved, Follows, Stored, TotalBytes, FitsIn;
    var before := MoveAll(db, source, target, front).value;
    MoveAllKeeps(db, source, target, front);
    MoveAllEffect(db, source, target, front);
    hide Structured;
    MoveOneSucceedsIff(before, source, target, rec);
    LastIsMovable(db, before, source, target, front, rec);
  }

  lemma FrontMovable(db: Db, source: FamilyId, front: seq<MigrateRecord>, rec: MigrateRecord)
    ensures Movable(db, source, front + [rec]) ==> Movable(db, source, front)
  {
    var recs := front + [rec];
    assert forall i :: 0 <= i < |front| ==> front[i] == recs[i];
  }

  lemma LastIsMovable(db: Db, before: Db, source: FamilyId, target: FamilyId, front: seq<MigrateRecord>,
                      rec: MigrateRecord)
    requires source != target && IsMoved(db, before, source, target, front) && Movable(db, source, front)
    ensures FitsIn(before, source, rec) <==> Movable(db, source, front + [rec])
  {
    var recs := front + [rec];
    assert forall i :: 0 <= i < |front| ==> recs[i] == front[i];
    assert recs[|front|] == rec;
    if i :| 0 <= i < |front| && front[i].recordId == rec.recordId {
      assert Arrived(db, before, source, target, front[i], db.nextSeq[target] + i);
    } else {
      assert rec.recordId !in RecordIds(front);
    }
  }

  // ---- who may migrate, and why a migration fails ----

  /** The same letter, in either case if it is one of A to Z. */
  predicate IsSameLetter(c: char, d: char) {
    || c == d
    || ('A' <= c <= 'Z' && d as int == c as int + 32)
    || ('A' <= d <= 'Z' && c as int == d as int + 32)
  }

  /** One address, read letter by letter without regard to ASCII case. */
  predicate IsSameEmail(a: string, b: string) {
    |a| == |b| && forall i :: 0 <= i < |a| ==> IsSameLetter(a[i], b[i])
  }

  lemma {:induction false} NoCaseIff(a: string, b: string)
    ensures NoCase(a) == NoCase(b) <==> IsSameEmail(a, b)
  {
    NoCaseKeepsLength(a);
    NoCaseKeepsLength(b);
    if a != "" && b != "" {
      NoCaseIff(a[1..], b[1..]);
      assert NoCase(a)[1..] == NoCase(a[1..]) && NoCase(b)[1..] == NoCase(b[1..]);
      assert NoCase(a)[0] == NoCase(b)[0] <==> IsSameLetter(a[0], b[0]);
      SameEmailUnfold(a, b);
      if NoCase(a)[0] == NoCase(b)[0] && NoCase(a[1..]) == NoCase(b[1..]) {
        assert NoCase(a) == [NoCase(a)[0]] + NoCase(a[1..]) && NoCase(b) == [NoCase(b)[0]] + NoCase(b[1..]);
      }
    }
  }

  lemma {:induction false} NoCaseKeepsLength(s: string)
    ensures |NoCase(s)| == |s|
  {
    if s != "" { NoCaseKeepsLength(s[1..]); }
  }

  lemma SameEmailUnfold(a: string, b: string)
    requires a != "" && b != ""
    ensures IsSameEmail(a, b) <==> IsSameLetter(a[0], b[0]) && IsSameEmail(a[1..], b[1..])
  {
    hide IsSameLetter;
    if IsSameLetter(a[0], b[0]) && IsSameEmail(a[1..], b[1..]) {
      forall i | 0 <= i < |a| ensures IsSameLetter(a[i], b[i]) {
        if i > 0 { assert a[i] == a[1..][i - 1] && b[i] == b[1..][i - 1]; }
      }
    }
  }

  lemma EntitledIff(db: Db, p: MigrateParams)
    ensures MayEnter(db, p) <==>
            (p.target, p.caller) in db.members
            || exists email :: (p.target, email) in db.invites && IsSameEmail(email, p.callerEmail)
  {
    hide NoCase, IsSameEmail;
    if i :| i in db.invites && i.0 == p.target && NoCase(i.1) == NoCase(p.callerEmail) {
      NoCaseIff(i.1, p.callerEmail);
      assert (p.target, i.1) in db.invites;
    }
    if email :| (p.target, email) in db.invites && IsSameEmail(email, p.callerEmail) {
      NoCaseIff(email, p.callerEmail);
      assert (p.target, email).1 == email;
    }
  }

  /** Record `i` is the first that does not fit, because its id is taken: by a record
      outside the source, or by an earlier one of the list. */
  ghost predicate IsFirstTaken(db: Db, source: FamilyId, recs: seq<MigrateRecord>, i: int) {
    && 0 <= i < |recs| && Movable(db, source, recs[..i])
    && ((recs[i].recordId in db.records && db.records[recs[i].recordId].family != source)
        || exists j :: 0 <= j < i && recs[j].recordId == recs[i].recordId)
  }

  lemma {:induction false} MoveAllErrors(db: Db, source: FamilyId, target: FamilyId, recs: seq<MigrateRecord>)
    requires Structured(db) && source != target && MoveAll(db, source, target, recs).Failure?
    ensures var error := MoveAll(db, source, target, recs).error;
            && (error == IdConflict || error == MigrateFailed)
            && (error == IdConflict <==> target in db.usage && exists i :: IsFirstTaken(db, source, recs, i))
  {
    hide MoveOne, Movable, Structured;
    var front, rec, n := recs[..|recs| - 1], recs[|recs| - 1], |recs| - 1;
    assert recs == front + [rec];
    MoveAllSucceedsIff(db, source, target, front);
    forall i | 0 <= i < n ensures IsFirstTaken(db, source, front, i) == IsFirstTaken(db, source, recs, i) {
      TakenInFront(db, source, front, rec, i);
    }
    if MoveAll(db, source, target, front).Failure? {
      MoveAllErrors(db, source, target, front);
      assert recs[..n] == front;
    } else {
      LastError(db, source, target, front, rec);
      NoneMovable(db, source);
      NoneTaken(db, source, front);
    }
  }

  lemma NoneTaken(db: Db, source: FamilyId, recs: seq<MigrateRecord>)
    requires Movable(db, source, recs)
    ensures forall i :: !IsFirstTaken(db, source, recs, i)
  {
  }

  lemma LastError(db: Db, source: FamilyId, target: FamilyId, front: seq<MigrateRecord>, rec: MigrateRecord)
    requires Structured(db) && source != target && MoveAll(db, source, target, front).Success?
    requires MoveOne(MoveAll(db, source, target, front).value, source, target, rec).Failure?
    ensures var error := MoveOne(MoveAll(db, source, target, front).value, source, target, rec).error;
            && (error == IdConflict || error == MigrateFailed)
            && (error == IdConflict <==>
                  target in db.usage && IsFirstTaken(db, source, front + [rec], |front|))
  {
    hide MoveAll, Movable, IsMoved, Follows, Stored, TotalBytes, Structured, IsFirstTaken, MoveFits;
    var before := MoveAll(db, source, target, front).value;
    MoveAllKeeps(db, source, target, front);
    BlobsOf(db);
    MoveAllEffect(db, source, target, front);
    MoveAllSucceedsIff(db, source, target, front);
    NoneMovable(db, source);
    FamiliesOf(db, before);
    TakenIff(db, before, source, target, front, rec);
  }

  lemma BlobsOf(db: Db)
    requires Structured(db)
    ensures BlobsOk(db)
  {
  }

  lemma FamiliesOf(db: Db, after: Db)
    requires Structured(db) && Structured(after) && after.usage == db.usage
    ensures db.usage.Keys == db.nextSeq.Keys && after.usage.Keys == after.nextSeq.Keys
  {
  }

  lemma TakenIff(db: Db, before: Db, source: FamilyId, target: FamilyId, front: seq<MigrateRecord>,
                 rec: MigrateRecord)
    requires source != target && IsMoved(db, before, source, target, front) && Movable(db, source, front)
    ensures FindRow(before, rec.recordId, source).None? && rec.recordId in before.records
       <==> IsFirstTaken(db, source, front + [rec], |front|)
  {
    hide Movable;
    var recs := front + [rec];
    assert recs[..|front|] == front && recs[|front|] == rec;
    assert forall i :: 0 <= i < |front| ==> recs[i] == front[i];
    if i :| 0 <= i < |front| && front[i].recordId == rec.recordId {
      assert Arrived(db, before, source, target, front[i], db.nextSeq[target] + i);
      assert recs[i].recordId == rec.recordId;
    } else {
      assert rec.recordId !in RecordIds(front);
    }
  }

  lemma TakenInFront(db: Db, source: FamilyId, front: seq<MigrateRecord>, rec: MigrateRecord, i: nat)
    requires i < |front|
    ensures IsFirstTaken(db, source, front, i) == IsFirstTaken(db, source, front + [rec], i)
  {
    hide Movable;
    var recs := front + [rec];
    assert recs[..i] == front[..i];
    assert forall j :: 0 <= j <= i ==> recs[j] == front[j];
  }
}
