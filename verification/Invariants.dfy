/** What holds of the tables in every reachable state, and how one state may follow
    another: both preserved by the two elementary writes every operation is made of. */
module Invariants {
  import opened Wrappers
  import opened Tables

  // ---- one state ----

  ghost predicate KeysOk(db: Db) {
    && db.usage.Keys == db.nextSeq.Keys
    && "" !in db.users
    && forall f :: f in db.nextSeq ==> db.nextSeq[f] >= 1
  }

  /** A deletion time is never empty text, which is how the wire spells "not deleted". */
  ghost predicate RowOk(db: Db, row: Row) {
    && row.family in db.nextSeq
    && row.blob in db.blobs
    && row.addedBy in db.users && row.editedBy in db.users
    && row.version >= 1
    && row.deletedAt != Some("")
    && 1 <= row.seqNo < db.nextSeq[row.family]
  }

  ghost predicate RowsOk(db: Db) {
    forall r :: r in db.records ==> RowOk(db, db.records[r])
  }

  /** The unique (family_id, family_seq) index. */
  ghost predicate SeqsDistinct(db: Db) {
    forall r, s :: r in db.records && s in db.records && r != s ==>
      !(db.records[r].family == db.records[s].family && db.records[r].seqNo == db.records[s].seqNo)
  }

  ghost predicate BlobsOk(db: Db) {
    forall b :: b in db.blobs ==> b < db.nextBlob && db.blobs[b].family in db.usage
  }

  /** A snapshot entry keeps its blob alive and agrees with the record it was taken
      from on the columns that never change. */
  ghost predicate EntryOk(db: Db, r: RecordId, e: Entry) {
    && e.blob in db.blobs
    && r in db.records
    && db.records[r].recordType == e.recordType
    && e.addedBy == Some(db.records[r].addedBy)
    && e.editedBy.Some? && e.editedBy.value in db.users
  }

  ghost predicate EntriesOk(db: Db, entries: map<RecordId, Entry>) {
    forall r :: r in entries ==> EntryOk(db, r, entries[r])
  }

  ghost predicate SnapshotsOk(db: Db) {
    forall s :: s in db.snapshots ==>
      && s < db.nextSnapshot
      && db.snapshots[s].family in db.usage
      && EntriesOk(db, db.snapshots[s].entries)
  }

  /** The unique (family_id, snapshot_date) constraint. */
  ghost predicate DatesOk(db: Db) {
    forall s, t :: s in db.snapshots && t in db.snapshots && s != t ==>
      !(db.snapshots[s].family == db.snapshots[t].family && db.snapshots[s].date == db.snapshots[t].date)
  }

  ghost predicate Structured(db: Db) {
    KeysOk(db) && RowsOk(db) && SeqsDistinct(db) && BlobsOk(db) && SnapshotsOk(db) && DatesOk(db)
  }

  function Stored(db: Db, f: FamilyId): nat {
    StoredBytes(db.blobs, f, db.nextBlob)
  }

  /** The usage counter covers the stored blobs and stays under the cap. */
  ghost predicate UsageOk(db: Db) {
    forall f :: f in db.usage ==> Stored(db, f) <= db.usage[f] <= QUOTA_MAX_BYTES
  }

  ghost predicate Valid(db: Db) {
    Structured(db) && UsageOk(db)
  }

  // ---- two states ----

  /** A row keeps its type and author for good, and is either untouched or has a
      higher version and a sequence number no reader of `old` can have seen. */
  ghost predicate RowFollows(earlier: Db, r: RecordId, row: Row) {
    if r in earlier.records then
      var before := earlier.records[r];
      && row.recordType == before.recordType
      && row.addedBy == before.addedBy
      && (row == before || (row.version > before.version && IsNewSeq(earlier, row)))
    else IsNewSeq(earlier, row)
  }

  ghost predicate IsNewSeq(earlier: Db, row: Row) {
    row.family in earlier.nextSeq ==> row.seqNo >= earlier.nextSeq[row.family]
  }

  /** Nothing a reader relies on is lost or rewritten between the two states. */
  ghost predicate Follows(earlier: Db, db: Db) {
    && earlier.users <= db.users
    && (forall f :: f in earlier.nextSeq ==> f in db.nextSeq && earlier.nextSeq[f] <= db.nextSeq[f])
    && earlier.nextBlob <= db.nextBlob && earlier.nextSnapshot <= db.nextSnapshot
    && (forall r :: r in earlier.records ==> r in db.records)
    && (forall r :: r in db.records ==> RowFollows(earlier, r, db.records[r]))
    && (forall b :: b in db.blobs && b < earlier.nextBlob ==> b in earlier.blobs && db.blobs[b] == earlier.blobs[b])
    && (forall s :: s in db.snapshots && s < earlier.nextSnapshot ==>
          s in earlier.snapshots && db.snapshots[s] == earlier.snapshots[s])
    && (forall m :: m in earlier.migrations ==> m in db.migrations && db.migrations[m] == earlier.migrations[m])
  }

  lemma FollowsReflexive(db: Db)
    requires BlobsOk(db) && SnapshotsOk(db)
    ensures Follows(db, db)
  {
  }

  lemma FollowsTransitive(a: Db, b: Db, c: Db)
    requires Follows(a, b) && Follows(b, c)
    ensures Follows(a, c)
  {
    forall r | r in c.records ensures RowFollows(a, r, c.records[r]) {
      assert RowFollows(b, r, c.records[r]);
      if r in b.records { assert RowFollows(a, r, b.records[r]); }
    }
  }

  // ---- the elementary writes ----

  lemma AddBlobKeeps(db: Db, fam: FamilyId, ciphertext: bytes)
    requires Structured(db) && fam in db.usage
    ensures Structured(AddBlob(db, fam, ciphertext)) && Follows(db, AddBlob(db, fam, ciphertext))
  {
    var after := AddBlob(db, fam, ciphertext);
    assert forall r :: r in db.records ==> RowOk(db, db.records[r]);
    forall s | s in db.snapshots ensures EntriesOk(after, db.snapshots[s].entries) {
      assert EntriesOk(db, db.snapshots[s].entries);
      assert forall r :: r in db.snapshots[s].entries ==> EntryOk(db, r, db.snapshots[s].entries[r]);
    }
  }

  /** `row` may be written under `id`, at the next sequence number of its family. */
  ghost predicate IsNextWrite(db: Db, id: RecordId, row: Row) {
    && row.family in db.nextSeq && row.seqNo == db.nextSeq[row.family]
    && row.blob in db.blobs
    && row.addedBy in db.users && row.editedBy in db.users
    && row.version >= 1
    && row.deletedAt != Some("")
    && (id in db.records ==>
          && row.recordType == db.records[id].recordType
          && row.addedBy == db.records[id].addedBy
          && row.version > db.records[id].version)
  }

  function WriteNext(db: Db, id: RecordId, row: Row): Db
    requires row.family in db.nextSeq
  {
    PutRow(TakeSeq(db, row.family), id, row)
  }

  /** The next sequence number is never taken, so the index never refuses the write. */
  lemma NextSeqIsFree(db: Db, id: RecordId, fam: FamilyId)
    requires RowsOk(db) && fam in db.nextSeq
    ensures SeqIsFree(db, id, fam, db.nextSeq[fam])
  {
  }

  lemma WriteNextKeepsRows(db: Db, id: RecordId, row: Row)
    requires Structured(db) && IsNextWrite(db, id, row)
    ensures var after := WriteNext(db, id, row);
            KeysOk(after) && RowsOk(after) && SeqsDistinct(after) && BlobsOk(after) && DatesOk(after)
  {
  }

  lemma WriteNextKeepsSnapshots(db: Db, id: RecordId, row: Row)
    requires Structured(db) && IsNextWrite(db, id, row)
    ensures SnapshotsOk(WriteNext(db, id, row))
  {
  }

  lemma WriteNextFollows(db: Db, id: RecordId, row: Row)
    requires Structured(db) && IsNextWrite(db, id, row)
    ensures Follows(db, WriteNext(db, id, row))
  {
  }

  lemma WriteNextKeeps(db: Db, id: RecordId, row: Row)
    requires Structured(db) && IsNextWrite(db, id, row)
    ensures Structured(WriteNext(db, id, row)) && Follows(db, WriteNext(db, id, row))
  {
    WriteNextKeepsRows(db, id, row);
    WriteNextKeepsSnapshots(db, id, row);
    WriteNextFollows(db, id, row);
  }

  /** Columns outside records, blobs and sequences do not matter for the structure. */
  lemma UsageIsNotStructural(db: Db, usage: map<FamilyId, int>)
    requires Structured(db) && usage.Keys == db.usage.Keys
    ensures Structured(db.(usage := usage))
  {
  }

  lemma FollowsIgnoresUsage(earlier: Db, db: Db, usage: map<FamilyId, int>)
    requires Follows(earlier, db)
    ensures Follows(earlier, db.(usage := usage))
  {
  }

  // ---- the byte sums ----

  lemma {:induction false} StoredBytesIgnoresAbove(blobs: map<BlobId, Blob>, id: BlobId, blob: Blob,
                                                   fam: FamilyId, upTo: nat)
    requires upTo <= id
    ensures StoredBytes(blobs[id := blob], fam, upTo) == StoredBytes(blobs, fam, upTo)
  {
    if upTo > 0 { StoredBytesIgnoresAbove(blobs, id, blob, fam, upTo - 1); }
  }

  lemma AddBlobAddsBytes(db: Db, fam: FamilyId, ciphertext: bytes, f: FamilyId)
    ensures Stored(AddBlob(db, fam, ciphertext), f)
         == Stored(db, f) + if f == fam then |ciphertext| else 0
  {
    StoredBytesIgnoresAbove(db.blobs, db.nextBlob, Blob(fam, ciphertext), f, db.nextBlob);
  }

  lemma {:induction false} StoredBytesMonotone(small: map<BlobId, Blob>, big: map<BlobId, Blob>,
                                               fam: FamilyId, upTo: nat)
    requires forall b :: b in small ==> b in big && small[b] == big[b]
    ensures StoredBytes(small, fam, upTo) <= StoredBytes(big, fam, upTo)
  {
    if upTo > 0 { StoredBytesMonotone(small, big, fam, upTo - 1); }
  }
}
