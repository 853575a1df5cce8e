/** Daily snapshots: taking one, restoring one, and the nightly clean-up
    (backend/internal/snapshot). */
module Snapshots {
  import opened Wrappers
  import opened Sequences
  import opened Tables
  import opened Records
  import opened Invariants
  import opened Cursor

  /** 30 days, in milliseconds. */
  const SNAPSHOT_TTL: int := 30 * 24 * 60 * 60 * 1000

  /** A query without ORDER BY returns its rows in any order. */
  method ListIds<T>(m: map<RecordId, T>) returns (ids: seq<RecordId>)
    ensures forall i, j :: 0 <= i < j < |ids| ==> ids[i] != ids[j]
    ensures Elements(ids) == m.Keys
  {
    ids := [];
    var todo := m.Keys;
    while todo != {}
      invariant todo <= m.Keys && Elements(ids) == m.Keys - todo
      invariant forall i, j :: 0 <= i < j < |ids| ==> ids[i] != ids[j]
      decreases todo
    {
      var r :| r in todo;
      assert forall i :: 0 <= i < |ids| ==> ids[i] in Elements(ids);
      ElementsSnoc(ids, r);
      ids, todo := ids + [r], todo - {r};
    }
  }

  // ---- create ----

  datatype CreateError = SnapshotAlreadyExists(existing: SnapshotId) | CreateFailed

  predicate IsSnapshotOf(db: Db, s: SnapshotId, fam: FamilyId, date: string) {
    s in db.snapshots && db.snapshots[s].family == fam && db.snapshots[s].date == date
  }

  predicate IsLive(db: Db, r: RecordId, fam: FamilyId) {
    r in db.records && db.records[r].family == fam && db.records[r].deletedAt.None?
  }

  function LiveRows(db: Db, fam: FamilyId): map<RecordId, Row> {
    map r | r in db.records && IsLive(db, r, fam) :: db.records[r]
  }

  function EntryOf(row: Row): Entry {
    Entry(row.blob, row.recordType, row.version, row.stamps, NullStr(row.addedBy), NullStr(row.editedBy))
  }

  predicate KnownUser(db: Db, u: Option<UserId>) {
    u.Some? ==> u.value in db.users
  }

  /** Foreign keys of snapshot_entries. */
  predicate CanInsertEntry(db: Db, e: Entry) {
    e.blob in db.blobs && KnownUser(db, e.addedBy) && KnownUser(db, e.editedBy)
  }

  function EntriesOf(rows: map<RecordId, Row>): map<RecordId, Entry> {
    map r | r in rows :: EntryOf(rows[r])
  }

  predicate AllInsertable(db: Db, rows: map<RecordId, Row>) {
    forall r :: r in rows ==> CanInsertEntry(db, EntryOf(rows[r]))
  }

  predicate CanCreate(db: Db, fam: FamilyId) {
    fam in db.usage && AllInsertable(db, LiveRows(db, fam))
  }

  function Created(db: Db, fam: FamilyId, date: string, now: int): Db {
    var taken := Snapshot(fam, date, now + SNAPSHOT_TTL, EntriesOf(LiveRows(db, fam)));
    db.(snapshots := db.snapshots[db.nextSnapshot := taken], nextSnapshot := db.nextSnapshot + 1)
  }

  /** `CreateSnapshot`: one snapshot row, then one entry per live record. */
  method CreateSnapshot(d: Database, fam: FamilyId, date: string, now: int)
    returns (r: Result<SnapshotId, CreateError>)
    modifies d
    ensures match r
            case Failure(SnapshotAlreadyExists(s)) =>
              IsSnapshotOf(old(d.State()), s, fam, date) && d.State() == old(d.State())
            case Failure(CreateFailed) =>
              && (forall s :: !IsSnapshotOf(old(d.State()), s, fam, date))
              && !CanCreate(old(d.State()), fam) && d.State() == old(d.State())
            case Success(id) =>
              && (forall s :: !IsSnapshotOf(old(d.State()), s, fam, date))
              && CanCreate(old(d.State()), fam)
              && id == old(d.nextSnapshot) && d.State() == Created(old(d.State()), fam, date, now)
  {
    hide LiveRows, EntriesOf, EntryOf;
    var begin := d.State();
    if s :| s in d.snapshots && d.snapshots[s].family == fam && d.snapshots[s].date == date {
      return Failure(SnapshotAlreadyExists(s));
    }
    if fam !in d.usage { return Failure(CreateFailed); }
    var id := d.nextSnapshot;
    d.snapshots := d.snapshots[id := Snapshot(fam, date, now + SNAPSHOT_TTL, map[])];
    d.nextSnapshot := id + 1;
    var ok := InsertEntries(d, id, LiveRows(begin, fam));
    if !ok {
      d.Rollback(begin);
      return Failure(CreateFailed);
    }
    return Success(id);
  }

  /** One `InsertSnapshotEntry` per row. */
  method InsertEntries(d: Database, id: SnapshotId, rows: map<RecordId, Row>) returns (ok: bool)
    requires id in d.snapshots && d.snapshots[id].entries == map[]
    modifies d
    ensures ok <==> AllInsertable(old(d.State()), rows)
    ensures ok ==> d.State() == old(d.State()).(snapshots :=
                     old(d.snapshots)[id := old(d.snapshots)[id].(entries := EntriesOf(rows))])
  {
    hide CanInsertEntry, EntryOf, AllInsertable, EntriesOf;
    var begin := d.State();
    var ids := ListIds(rows);
    var i := 0;
    var snapshot := d.snapshots[id];
    ghost var part: map<RecordId, Row> := map[];
    NoneInsertable(begin);
    while i < |ids|
      invariant 0 <= i <= |ids|
      invariant part.Keys == Elements(ids[..i])
      invariant forall r :: r in part ==> r in rows && part[r] == rows[r]
      invariant snapshot == begin.snapshots[id].(entries := EntriesOf(part))
      invariant AllInsertable(begin, part)
      invariant d.State() == begin.(snapshots := begin.snapshots[id := snapshot])
    {
      var r := ids[i];
      assert r in Elements(ids);
      var e := EntryOf(rows[r]);
      SnapshotsDoNotMatter(begin, d.snapshots, e);
      InsertableOneMore(begin, part, rows, r);
      if !CanInsertEntry(d.State(), e) { return false; }
      assert ids[..i + 1] == ids[..i] + [r];
      ElementsSnoc(ids[..i], r);
      EntriesSnoc(part, r, rows[r]);
      part := part[r := rows[r]];
      snapshot := snapshot.(entries := snapshot.entries[r := e]);
      d.snapshots := d.snapshots[id := snapshot];
      assert d.snapshots == begin.snapshots[id := snapshot];
      i := i + 1;
    }
    assert ids[..i] == ids;
    assert part == rows;
    return true;
  }

  lemma EntriesSnoc(part: map<RecordId, Row>, r: RecordId, row: Row)
    ensures EntriesOf(part[r := row]) == EntriesOf(part)[r := EntryOf(row)]
  {
  }

  lemma NoneInsertable(db: Db)
    ensures AllInsertable(db, map[]) && EntriesOf(map[]) == map[]
  {
  }

  lemma InsertableOneMore(db: Db, part: map<RecordId, Row>, rows: map<RecordId, Row>, r: RecordId)
    requires r in rows && AllInsertable(db, part)
    ensures CanInsertEntry(db, EntryOf(rows[r])) ==> AllInsertable(db, part[r := rows[r]])
    ensures !CanInsertEntry(db, EntryOf(rows[r])) ==> !AllInsertable(db, rows)
  {
  }

  lemma SnapshotsDoNotMatter(db: Db, snapshots: map<SnapshotId, Snapshot>, e: Entry)
    ensures CanInsertEntry(db.(snapshots := snapshots), e) == CanInsertEntry(db, e)
  {
  }

  // ---- prune and reconcile ----

  function WithoutExpired(db: Db, now: int): Db {
    db.(snapshots := map s | s in db.snapshots && db.snapshots[s].expiresAt >= now :: db.snapshots[s])
  }

  function WithoutOrphans(db: Db): Db {
    db.(blobs := map b | b in db.blobs && IsReferenced(db, b) :: db.blobs[b])
  }

  function Reconciled(db: Db): Db {
    db.(usage := map f | f in db.usage :: StoredBytes(db.blobs, f, db.nextBlob))
  }

  method PruneExpiredSnapshots(d: Database, now: int)
    modifies d
    ensures d.State() == WithoutExpired(old(d.State()), now)
  {
    d.snapshots := map s | s in d.snapshots && d.snapshots[s].expiresAt >= now :: d.snapshots[s];
  }

  method PruneOrphanBlobs(d: Database)
    modifies d
    ensures d.State() == WithoutOrphans(old(d.State()))
  {
    var db := d.State();
    d.blobs := map b | b in db.blobs && IsReferenced(db, b) :: db.blobs[b];
  }

  method ReconcileUsage(d: Database)
    modifies d
    ensures d.State() == Reconciled(old(d.State()))
  {
    d.usage := map f | f in d.usage :: StoredBytes(d.blobs, f, d.nextBlob);
  }

  // ---- restore ----

  datatype RestoreError = RestoreFailed

  function Entries(db: Db, sid: SnapshotId): map<RecordId, Entry> {
    if sid in db.snapshots then db.snapshots[sid].entries else map[]
  }

  /** `stringOrFallback` */
  function OrFallback(u: Option<UserId>, caller: UserId): UserId {
    if u.Some? && u.value != "" then u.value else caller
  }

  /** The row an entry puts back, sequence number aside. */
  function EntryRow(db: Db, fam: FamilyId, caller: UserId, r: RecordId, e: Entry): (row: Row)
    ensures row.family == fam
  {
    match FindRow(db, r, fam)
    case None =>
      Row(fam, e.recordType, e.blob, e.version + 1, OrFallback(e.addedBy, caller), OrFallback(e.editedBy, caller),
          e.stamps, None, 0)
    case Some(row) =>
      row.(blob := e.blob, version := row.version + 1, editedBy := OrFallback(e.editedBy, caller),
           stamps := e.stamps, deletedAt := None)
  }

  /** The row of a live record the snapshot does not know. */
  function TombstoneOf(row: Row, now: TimeText): Row {
    row.(version := row.version + 1, deletedAt := Some(now))
  }

  /** Every row a restore writes: the entries, and the tombstones of the rest. */
  function Plan(db: Db, fam: FamilyId, caller: UserId, now: TimeText, entries: map<RecordId, Entry>)
    : map<RecordId, Row>
  {
    map r | r in entries.Keys + LiveRows(db, fam).Keys ::
      if r in entries then EntryRow(db, fam, caller, r, entries[r]) else TombstoneOf(db.records[r], now)
  }

  /** Row `r` is the planned one, at one of the `n` sequence numbers from `base` on. */
  ghost predicate IsPlanned(plan: map<RecordId, Row>, base: int, n: nat, after: map<RecordId, Row>, r: RecordId) {
    && r in plan && r in after
    && after[r] == plan[r].(seqNo := after[r].seqNo)
    && base <= after[r].seqNo < base + n
  }

  ghost predicate DistinctSeqs(done: set<RecordId>, after: map<RecordId, Row>)
    requires done <= after.Keys
  {
    forall r, s :: r in done && s in done && r != s ==> after[r].seqNo != after[s].seqNo
  }

  /** The rows of `plan` for the ids in `done` have replaced the old ones, each at a
      sequence number of its own from `base` on; the other rows are the old ones. */
  ghost predicate RowsWritten(rows: map<RecordId, Row>, plan: map<RecordId, Row>, base: int,
                              done: set<RecordId>, after: map<RecordId, Row>)
  {
    && done <= plan.Keys
    && after.Keys == rows.Keys + done
    && (forall r :: r in rows && r !in done ==> after[r] == rows[r])
    && (forall r :: r in done ==> IsPlanned(plan, base, |done|, after, r))
    && DistinctSeqs(done, after)
  }

  ghost function Advanced(nextSeq: map<FamilyId, int>, fam: FamilyId, n: nat): map<FamilyId, int>
    requires n > 0 ==> fam in nextSeq
  {
    if n == 0 then nextSeq else nextSeq[fam := nextSeq[fam] + n]
  }

  /** Exactly the rows of `plan` in `done` are written, at the next sequence numbers. */
  ghost predicate IsWritten(db: Db, fam: FamilyId, plan: map<RecordId, Row>, done: set<RecordId>, after: Db) {
    && (done != {} ==> fam in db.nextSeq)
    && (done == {} ==> |done| == 0)
    && after == db.(records := after.records, nextSeq := Advanced(db.nextSeq, fam, |done|))
    && RowsWritten(db.records, plan, if fam in db.nextSeq then db.nextSeq[fam] else 0, done, after.records)
  }

  ghost predicate IsRestored(db: Db, fam: FamilyId, caller: UserId, now: TimeText, sid: SnapshotId, after: Db) {
    var plan := Plan(db, fam, caller, now, Entries(db, sid));
    IsWritten(db, fam, plan, plan.Keys, after)
  }

  /** The entry can be written back: its record is not another family's by now, and
      the users it names exist. */
  ghost predicate CanRestoreEntry(db: Db, fam: FamilyId, caller: UserId, r: RecordId, e: Entry) {
    && fam in db.nextSeq
    && (r in db.records ==> db.records[r].family == fam)
    && e.blob in db.blobs
    && OrFallback(e.editedBy, caller) in db.users
    && (r !in db.records ==> OrFallback(e.addedBy, caller) in db.users)
  }

  ghost predicate CanRestore(db: Db, fam: FamilyId, caller: UserId, entries: map<RecordId, Entry>) {
    forall r :: r in entries ==> CanRestoreEntry(db, fam, caller, r, entries[r])
  }

  lemma RowsWrittenOneMore(rows: map<RecordId, Row>, plan: map<RecordId, Row>, base: int,
                           done: set<RecordId>, after: map<RecordId, Row>, r: RecordId)
    requires RowsWritten(rows, plan, base, done, after) && r in plan && r !in done
    ensures RowsWritten(rows, plan, base, done + {r}, after[r := plan[r].(seqNo := base + |done|)])
  {
    hide IsPlanned, DistinctSeqs;
    var more, row := done + {r}, plan[r].(seqNo := base + |done|);
    assert |more| == |done| + 1;
    AllPlannedOneMore(plan, base, done, after, r);
    DistinctOneMore(plan, base, done, after, r, row);
    OthersUntouched(rows, plan, base, done, after, r, row);
  }

  lemma OthersUntouched(rows: map<RecordId, Row>, plan: map<RecordId, Row>, base: int,
                        done: set<RecordId>, after: map<RecordId, Row>, r: RecordId, row: Row)
    requires RowsWritten(rows, plan, base, done, after)
    ensures after[r := row].Keys == rows.Keys + (done + {r})
    ensures forall s :: s in rows && s !in done + {r} ==> after[r := row][s] == rows[s]
  {
  }

  lemma AllPlannedOneMore(plan: map<RecordId, Row>, base: int, done: set<RecordId>,
                          after: map<RecordId, Row>, r: RecordId)
    requires r in plan && forall s :: s in done ==> IsPlanned(plan, base, |done|, after, s)
    ensures forall s :: s in done + {r} ==>
              IsPlanned(plan, base, |done| + 1, after[r := plan[r].(seqNo := base + |done|)], s)
  {
  }

  lemma DistinctOneMore(plan: map<RecordId, Row>, base: int, done: set<RecordId>,
                        after: map<RecordId, Row>, r: RecordId, row: Row)
    requires done <= after.Keys && DistinctSeqs(done, after) && r !in done
    requires forall s :: s in done ==> IsPlanned(plan, base, |done|, after, s)
    requires row.seqNo == base + |done|
    ensures DistinctSeqs(done + {r}, after[r := row])
  {
  }

  lemma NothingWritten(db: Db, fam: FamilyId, plan: map<RecordId, Row>)
    ensures IsWritten(db, fam, plan, {}, db)
  {
  }

  lemma WriteOneMore(db: Db, fam: FamilyId, plan: map<RecordId, Row>, done: set<RecordId>, soFar: Db, r: RecordId)
    requires IsWritten(db, fam, plan, done, soFar) && r in plan && r !in done
    requires fam in db.nextSeq && plan[r].family == fam
    ensures fam in soFar.nextSeq
    ensures IsWritten(db, fam, plan, done + {r},
                      WriteNext(soFar, r, plan[r].(seqNo := soFar.nextSeq[fam])))
  {
    hide RowsWritten;
    RowsWrittenOneMore(db.records, plan, db.nextSeq[fam], done, soFar.records, r);
    assert |done + {r}| == |done| + 1;
    assert Advanced(soFar.nextSeq, fam, 1) == Advanced(db.nextSeq, fam, |done| + 1);
  }

  /** A row not yet written is still the old one, and its new sequence number is free. */
  lemma NotYetWritten(db: Db, fam: FamilyId, plan: map<RecordId, Row>, done: set<RecordId>, soFar: Db, r: RecordId)
    requires IsWritten(db, fam, plan, done, soFar) && r !in done
    ensures r in soFar.records <==> r in db.records
    ensures r in db.records ==> soFar.records[r] == db.records[r]
    ensures fam in soFar.nextSeq <==> fam in db.nextSeq
    ensures soFar.usage == db.usage && soFar.blobs == db.blobs && soFar.users == db.users
    ensures RowsOk(db) && fam in soFar.nextSeq ==> SeqIsFree(soFar, r, fam, soFar.nextSeq[fam])
  {
  }

  /** What the constraints ask of one restored entry. */
  ghost predicate EntryFits(db: Db, fam: FamilyId, caller: UserId, id: RecordId, e: Entry) {
    && fam in db.nextSeq && fam in db.usage
    && e.blob in db.blobs
    && OrFallback(e.editedBy, caller) in db.users
    && SeqIsFree(db, id, fam, db.nextSeq[fam])
    && (id in db.records ==> db.records[id].family == fam)
    && (id !in db.records ==> OrFallback(e.addedBy, caller) in db.users)
  }

  /** One turn of the first loop, in terms of the state the transaction began with. */
  lemma EntryStep(db: Db, fam: FamilyId, caller: UserId, now: TimeText, entries: map<RecordId, Entry>,
                  done: set<RecordId>, before: Db, id: RecordId)
    requires var plan := Plan(db, fam, caller, now, entries);
             IsWritten(db, fam, plan, done, before) && id in entries && id !in done
    ensures Structured(db) ==>
              (EntryFits(before, fam, caller, id, entries[id]) <==> CanRestoreEntry(db, fam, caller, id, entries[id]))
    ensures EntryFits(before, fam, caller, id, entries[id]) ==>
              IsWritten(db, fam, Plan(db, fam, caller, now, entries), done + {id},
                        WriteNext(before, id, EntryRow(before, fam, caller, id, entries[id])
                                              .(seqNo := before.nextSeq[fam])))
  {
    var plan := Plan(db, fam, caller, now, entries);
    NotYetWritten(db, fam, plan, done, before, id);
    hide IsWritten, SeqIsFree, RowsOk, SeqsDistinct, SnapshotsOk, DatesOk, BlobsOk, WriteNext;
    assert EntryRow(before, fam, caller, id, entries[id]) == plan[id];
    if fam in db.nextSeq { WriteOneMore(db, fam, plan, done, before, id); }
  }

  /** The body of the first loop. */
  method WriteEntry(d: Database, fam: FamilyId, caller: UserId, id: RecordId, entry: Entry)
    returns (seqNo: Option<int>)
    modifies d
    ensures seqNo.Some? <==> EntryFits(old(d.State()), fam, caller, id, entry)
    ensures seqNo.Some? ==>
              && fam in old(d.nextSeq) && seqNo.value == old(d.nextSeq)[fam]
              && fam in d.nextSeq && d.nextSeq[fam] == seqNo.value + 1
              && d.State() == WriteNext(old(d.State()), id,
                   EntryRow(old(d.State()), fam, caller, id, entry).(seqNo := seqNo.value))
  {
    var existing := FindRow(d.State(), id, fam);
    seqNo := d.AdvanceFamilySeq(fam);
    if seqNo.None? { return None; }
    var addedBy := OrFallback(entry.addedBy, caller);
    var editedBy := OrFallback(entry.editedBy, caller);
    var ok: bool;
    if existing.None? {
      ok := d.InsertRecordMeta(id, Row(fam, entry.recordType, entry.blob, entry.version + 1, addedBy, editedBy,
                                       entry.stamps, None, seqNo.value));
    } else {
      ok := d.UpdateRecordMeta(id, fam, entry.blob, existing.value.version + 1, editedBy,
                               entry.stamps, None, seqNo.value);
    }
    if !ok { return None; }
  }

  ghost predicate TombstoneFits(db: Db, fam: FamilyId, id: RecordId) {
    && FindRow(db, id, fam).Some?
    && fam in db.nextSeq && fam in db.usage
    && db.records[id].blob in db.blobs
    && db.records[id].editedBy in db.users
    && SeqIsFree(db, id, fam, db.nextSeq[fam])
  }

  /** The body of the second loop. */
  method WriteTombstone(d: Database, fam: FamilyId, id: RecordId, now: TimeText) returns (seqNo: Option<int>)
    requires FindRow(d.State(), id, fam).Some?
    modifies d
    ensures seqNo.Some? <==> TombstoneFits(old(d.State()), fam, id)
    ensures seqNo.Some? ==>
              && fam in old(d.nextSeq) && seqNo.value == old(d.nextSeq)[fam]
              && fam in d.nextSeq && d.nextSeq[fam] == seqNo.value + 1
              && d.State() == WriteNext(old(d.State()), id,
                   TombstoneOf(old(d.records)[id], now).(seqNo := seqNo.value))
  {
    var rec := d.records[id];
    seqNo := d.AdvanceFamilySeq(fam);
    if seqNo.None? { return None; }
    var ok := d.UpdateRecordMeta(id, fam, rec.blob, rec.version + 1, rec.editedBy, rec.stamps,
                                 Some(now), seqNo.value);
    if !ok { return None; }
  }

  function FamilyRows(db: Db, fam: FamilyId): map<RecordId, Row> {
    map r | r in db.records && db.records[r].family == fam :: db.records[r]
  }

  /** First loop: every entry is put back. */
  method RestoreEntries(d: Database, fam: FamilyId, caller: UserId, ghost now: TimeText, entries: map<RecordId, Entry>)
    returns (finalCursor: Option<int>)
    modifies d
    ensures finalCursor.Some? ==>
              && IsWritten(old(d.State()), fam, Plan(old(d.State()), fam, caller, now, entries),
                           entries.Keys, d.State())
              && (entries != map[] ==> fam in d.nextSeq)
              && finalCursor.value == if entries == map[] then 0 else d.nextSeq[fam] - 1
    ensures Structured(old(d.State())) ==> (finalCursor.Some? <==> CanRestore(old(d.State()), fam, caller, entries))
  {
    hide IsWritten, Structured, EntryFits, CanRestoreEntry, EntryRow, Plan, WriteNext;
    var begin := d.State();
    ghost var plan := Plan(begin, fam, caller, now, entries);
    var last := 0;
    var ids := ListIds(entries);
    var i := 0;
    NothingWritten(begin, fam, plan);
    assert Elements(ids[..0]) == {};
    while i < |ids|
      invariant 0 <= i <= |ids|
      invariant IsWritten(begin, fam, plan, Elements(ids[..i]), d.State())
      invariant i == 0 ==> last == 0
      invariant i > 0 ==> fam in d.nextSeq && last == d.nextSeq[fam] - 1
      invariant Structured(begin) ==>
                  forall k :: 0 <= k < i ==> CanRestoreEntry(begin, fam, caller, ids[k], entries[ids[k]])
    {
      ghost var before, done := d.State(), Elements(ids[..i]);
      var id := ids[i];
      assert id in Elements(ids);
      NotYetDone(ids, i);
      EntryStep(begin, fam, caller, now, entries, done, before, id);
      var seqNo := WriteEntry(d, fam, caller, id, entries[id]);
      if seqNo.None? { return None; }
      assert ids[..i + 1] == ids[..i] + [id];
      ElementsSnoc(ids[..i], id);
      last := seqNo.value;
      i := i + 1;
    }
    assert ids[..i] == ids;
    assert forall r :: r in entries ==> r in Elements(ids);
    if |ids| == 0 { assert entries.Keys == {}; } else { assert ids[0] in Elements(ids); }
    return Some(last);
  }

  lemma NotYetDone(ids: seq<RecordId>, i: nat)
    requires i < |ids| && forall j, k :: 0 <= j < k < |ids| ==> ids[j] != ids[k]
    ensures ids[i] !in Elements(ids[..i])
  {
  }

  /** One turn of the second loop, in terms of the state the transaction began with. */
  lemma TombstoneStep(db: Db, fam: FamilyId, caller: UserId, now: TimeText, entries: map<RecordId, Entry>,
                      done: set<RecordId>, before: Db, id: RecordId)
    requires IsWritten(db, fam, Plan(db, fam, caller, now, entries), done, before)
    requires id !in done && id !in entries && IsLive(db, id, fam)
    ensures IsLive(before, id, fam) && before.records[id] == db.records[id]
    ensures Structured(db) ==> TombstoneFits(before, fam, id)
    ensures TombstoneFits(before, fam, id) ==>
              IsWritten(db, fam, Plan(db, fam, caller, now, entries), done + {id},
                        WriteNext(before, id, TombstoneOf(before.records[id], now)
                                              .(seqNo := before.nextSeq[fam])))
  {
    var plan := Plan(db, fam, caller, now, entries);
    NotYetWritten(db, fam, plan, done, before, id);
    assert id in plan && plan[id] == TombstoneOf(db.records[id], now);
    if Structured(db) { assert RowOk(db, db.records[id]); }
    hide IsWritten, SeqIsFree, Structured, WriteNext;
    if fam in db.nextSeq { WriteOneMore(db, fam, plan, done, before, id); }
  }

  /** The first `i` ids are dealt with: their live rows are in `done`, none of the
      others is, unless it was an entry. */
  ghost predicate Handled(db: Db, fam: FamilyId, entries: map<RecordId, Entry>, ids: seq<RecordId>, i: nat,
                          done: set<RecordId>)
  {
    && entries.Keys <= done
    && (forall r :: r in done ==> r in entries || IsLive(db, r, fam))
    && (forall k :: 0 <= k < i && k < |ids| ==> ids[k] in done || !IsLive(db, ids[k], fam))
    && (forall k :: i <= k < |ids| && ids[k] in done ==> ids[k] in entries)
  }

  lemma HandledWrite(db: Db, fam: FamilyId, entries: map<RecordId, Entry>, ids: seq<RecordId>, i: nat,
                     done: set<RecordId>)
    requires Handled(db, fam, entries, ids, i, done) && i < |ids| && IsLive(db, ids[i], fam)
    requires forall j, k :: 0 <= j < k < |ids| ==> ids[j] != ids[k]
    ensures Handled(db, fam, entries, ids, i + 1, done + {ids[i]})
  {
  }

  lemma HandledSkip(db: Db, fam: FamilyId, entries: map<RecordId, Entry>, ids: seq<RecordId>, i: nat,
                    done: set<RecordId>)
    requires Handled(db, fam, entries, ids, i, done) && i < |ids|
    requires ids[i] in entries || !IsLive(db, ids[i], fam)
    ensures Handled(db, fam, entries, ids, i + 1, done)
  {
  }

  lemma AllHandled(db: Db, fam: FamilyId, caller: UserId, now: TimeText, entries: map<RecordId, Entry>,
                   start: Db, ids: seq<RecordId>, done: set<RecordId>)
    requires IsWritten(db, fam, Plan(db, fam, caller, now, entries), entries.Keys, start)
    requires Elements(ids) == FamilyRows(start, fam).Keys
    requires Handled(db, fam, entries, ids, |ids|, done)
    ensures done == Plan(db, fam, caller, now, entries).Keys
  {
    var plan := Plan(db, fam, caller, now, entries);
    forall r | r in plan ensures r in done {
      if r !in entries {
        NotYetWritten(db, fam, plan, entries.Keys, start, r);
        assert r in FamilyRows(start, fam);
        assert r in Elements(ids);
      }
    }
  }

  /** Second loop: every live record the snapshot does not know becomes a tombstone. */
  method TombstoneOthers(d: Database, ghost begin: Db, fam: FamilyId, ghost caller: UserId, now: TimeText,
                         entries: map<RecordId, Entry>, last: int)
    returns (finalCursor: Option<int>)
    requires IsWritten(begin, fam, Plan(begin, fam, caller, now, entries), entries.Keys, d.State())
    requires entries != map[] ==> fam in d.nextSeq && last == d.nextSeq[fam] - 1
    requires entries == map[] ==> last == 0
    modifies d
    ensures finalCursor.Some? ==>
              var plan := Plan(begin, fam, caller, now, entries);
              && IsWritten(begin, fam, plan, plan.Keys, d.State())
              && (plan != map[] ==> fam in d.nextSeq)
              && finalCursor.value == if plan == map[] then 0 else d.nextSeq[fam] - 1
    ensures Structured(begin) ==> finalCursor.Some?
  {
    hide IsWritten, Structured, TombstoneFits, WriteNext, TombstoneOf, Handled, Plan;
    ghost var plan := Plan(begin, fam, caller, now, entries);
    ghost var start, done := d.State(), entries.Keys;
    var cursor := last;
    var ids := ListIds(FamilyRows(d.State(), fam));
    var i := 0;
    NoneHandled(begin, fam, entries, ids);
    while i < |ids|
      invariant 0 <= i <= |ids|
      invariant Handled(begin, fam, entries, ids, i, done)
      invariant IsWritten(begin, fam, plan, done, d.State())
      invariant done == {} ==> cursor == 0
      invariant done != {} ==> fam in d.nextSeq && cursor == d.nextSeq[fam] - 1
    {
      var id := ids[i];
      assert id in Elements(ids);
      if id in entries {
        HandledSkip(begin, fam, entries, ids, i, done);
      } else {
        NotDoneYet(begin, fam, entries, ids, i, done);
        SameRowAs(begin, fam, plan, entries.Keys, start, done, d.State(), id);
        if d.records[id].deletedAt.Some? {
          HandledSkip(begin, fam, entries, ids, i, done);
        } else {
          TombstoneStep(begin, fam, caller, now, entries, done, d.State(), id);
          var seqNo := WriteTombstone(d, fam, id, now);
          if seqNo.None? { return None; }
          cursor := seqNo.value;
          HandledWrite(begin, fam, entries, ids, i, done);
          done := done + {id};
        }
      }
      i := i + 1;
    }
    AllHandled(begin, fam, caller, now, entries, start, ids, done);
    return Some(cursor);
  }

  lemma NoneHandled(db: Db, fam: FamilyId, entries: map<RecordId, Entry>, ids: seq<RecordId>)
    ensures Handled(db, fam, entries, ids, 0, entries.Keys)
  {
  }

  lemma NotDoneYet(db: Db, fam: FamilyId, entries: map<RecordId, Entry>, ids: seq<RecordId>, i: nat,
                   done: set<RecordId>)
    requires Handled(db, fam, entries, ids, i, done) && i < |ids| && ids[i] !in entries
    ensures ids[i] !in done
  {
  }

  /** A row outside both sets is the same in both states, and the original one. */
  lemma SameRowAs(db: Db, fam: FamilyId, plan: map<RecordId, Row>, done1: set<RecordId>, s1: Db,
                  done2: set<RecordId>, s2: Db, id: RecordId)
    requires IsWritten(db, fam, plan, done1, s1) && IsWritten(db, fam, plan, done2, s2)
    requires id !in done1 && id !in done2 && id in FamilyRows(s1, fam)
    ensures id in s2.records && id in db.records
    ensures s2.records[id] == db.records[id] && db.records[id].family == fam
  {
  }

  /** `RestoreSnapshot`. A snapshot id that is not found has no entries, so such a
      call tombstones every record of the family. */
  method RestoreSnapshot(d: Database, fam: FamilyId, sid: SnapshotId, caller: UserId, now: TimeText)
    returns (r: Result<string, RestoreError>)
    modifies d
    ensures r.Failure? ==> d.State() == old(d.State())
    ensures r.Success? ==>
              var plan := Plan(old(d.State()), fam, caller, now, Entries(old(d.State()), sid));
              && IsRestored(old(d.State()), fam, caller, now, sid, d.State())
              && (plan != map[] ==> fam in d.nextSeq)
              && r.value == EncodeCursor(if plan == map[] then 0 else d.nextSeq[fam] - 1)
    ensures Structured(old(d.State())) ==>
              (r.Success? <==> CanRestore(old(d.State()), fam, caller, Entries(old(d.State()), sid)))
  {
    hide IsWritten, Structured, CanRestore, Plan;
    var begin := d.State();
    var entries := Entries(begin, sid);
    var last := RestoreEntries(d, fam, caller, now, entries);
    if last.None? { d.Rollback(begin); return Failure(RestoreFailed); }
    var finalCursor := TombstoneOthers(d, begin, fam, caller, now, entries, last.value);
    if finalCursor.None? { d.Rollback(begin); return Failure(RestoreFailed); }
    return Success(EncodeCursor(finalCursor.value));
  }
}
