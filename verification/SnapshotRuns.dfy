/** Snapshots over whole runs: what was live when a snapshot was taken is what is
    live after it is restored, whatever happened in between. */
module SnapshotRuns {
  import opened Wrappers
  import opened Tables
  import opened Records
  import opened Invariants
  import opened Push
  import opened Snapshots
  import opened Migrations
  import opened Server

  /** A live record as its owner sees it. */
  datatype Shown = Shown(recordType: string, ciphertext: bytes, stamps: MapText, addedBy: UserId, editedBy: UserId)

  function ShowRow(db: Db, row: Row): Shown
    requires row.blob in db.blobs
  {
    Shown(row.recordType, db.blobs[row.blob].ciphertext, row.stamps, row.addedBy, row.editedBy)
  }

  function LiveContent(db: Db, fam: FamilyId): map<RecordId, Shown> {
    map r | r in db.records && IsLive(db, r, fam) && db.records[r].blob in db.blobs :: ShowRow(db, db.records[r])
  }

  function ShowEntry(db: Db, e: Entry): Shown
    requires e.blob in db.blobs
  {
    Shown(e.recordType, db.blobs[e.blob].ciphertext, e.stamps, Text(e.addedBy), Text(e.editedBy))
  }

  function SavedContent(db: Db, entries: map<RecordId, Entry>): map<RecordId, Shown> {
    map r | r in entries && entries[r].blob in db.blobs :: ShowEntry(db, entries[r])
  }

  /** In a reachable state a snapshot can always be taken, once a day. */
  lemma SnapshotCanBeTaken(db: Db, fam: FamilyId)
    requires Valid(db) && fam in db.usage
    ensures CanCreate(db, fam)
  {
  }

  /** A snapshot holds exactly the live content of its moment. */
  lemma TakenContent(db: Db, fam: FamilyId, date: string, now: int)
    requires Valid(db)
    ensures var after := Created(db, fam, date, now);
            && db.nextSnapshot in after.snapshots
            && SavedContent(after, Entries(after, db.nextSnapshot)) == LiveContent(db, fam)
            && Entries(after, db.nextSnapshot).Keys == LiveRows(db, fam).Keys
  {
    hide Valid, EntryOf, ShowRow, ShowEntry;
    forall r | r in LiveRows(db, fam)
      ensures EntryOf(db.records[r]).blob == db.records[r].blob && db.records[r].blob in db.blobs
           && ShowEntry(db, EntryOf(db.records[r])) == ShowRow(db, db.records[r])
    {
      EntryShowsRow(db, r);
    }
    SameBlobsSameContent(db, Created(db, fam, date, now), EntriesOf(LiveRows(db, fam)));
    assert SavedContent(db, EntriesOf(LiveRows(db, fam))) == LiveContent(db, fam);
  }

  lemma EntryShowsRow(db: Db, r: RecordId)
    requires Valid(db) && r in db.records
    ensures var row := db.records[r];
            && EntryOf(row).blob == row.blob && row.blob in db.blobs
            && ShowEntry(db, EntryOf(row)) == ShowRow(db, row)
  {
  }

  /** While a snapshot exists its entries and their blobs stay as they were. */
  lemma SavedContentStays(db: Db, later: Db, sid: SnapshotId)
    requires Valid(db) && Valid(later) && Follows(db, later)
    requires sid in db.snapshots && sid in later.snapshots
    ensures Entries(later, sid) == Entries(db, sid)
    ensures SavedContent(later, Entries(later, sid)) == SavedContent(db, Entries(db, sid))
  {
    var entries := Entries(db, sid);
    SnapshotStays(db, later, sid);
    hide Valid, Follows, EntriesOk;
    forall r | r in entries
      ensures entries[r].blob in db.blobs && entries[r].blob in later.blobs
           && later.blobs[entries[r].blob] == db.blobs[entries[r].blob]
    {
      EntryBlobStays(db, later, entries, r);
    }
    SameBlobsSameContent(db, later, entries);
  }

  lemma SameBlobsSameContent(db: Db, later: Db, entries: map<RecordId, Entry>)
    requires forall r :: r in entries ==>
               && entries[r].blob in db.blobs && entries[r].blob in later.blobs
               && later.blobs[entries[r].blob] == db.blobs[entries[r].blob]
    ensures SavedContent(later, entries) == SavedContent(db, entries)
  {
  }

  lemma SnapshotStays(db: Db, later: Db, sid: SnapshotId)
    requires Valid(db) && Valid(later) && Follows(db, later)
    requires sid in db.snapshots && sid in later.snapshots
    ensures later.snapshots[sid] == db.snapshots[sid]
    ensures EntriesOk(db, Entries(db, sid)) && EntriesOk(later, Entries(db, sid))
  {
  }

  lemma EntryBlobStays(db: Db, later: Db, entries: map<RecordId, Entry>, r: RecordId)
    requires Valid(db) && Follows(db, later) && EntriesOk(db, entries) && EntriesOk(later, entries) && r in entries
    ensures entries[r].blob in db.blobs && entries[r].blob in later.blobs
         && later.blobs[entries[r].blob] == db.blobs[entries[r].blob]
  {
  }

  /** Every entry's record still belongs to the family. */
  ghost predicate AllAtHome(db: Db, fam: FamilyId, ids: set<RecordId>) {
    forall r :: r in ids ==> r in db.records && db.records[r].family == fam
  }

  /** In a reachable state a restore goes through exactly when no record of the
      snapshot has moved to another family. */
  lemma RestorableIff(db: Db, fam: FamilyId, caller: UserId, sid: SnapshotId)
    requires Valid(db)
    ensures CanRestore(db, fam, caller, Entries(db, sid)) <==> AllAtHome(db, fam, Entries(db, sid).Keys)
  {
  }

  /** After a restore, record `r` shows what the snapshot says, or is a tombstone. */
  lemma RestoredRow(db: Db, fam: FamilyId, caller: UserId, now: TimeText, sid: SnapshotId, after: Db, r: RecordId)
    requires Valid(db) && CanRestore(db, fam, caller, Entries(db, sid))
    requires IsRestored(db, fam, caller, now, sid, after)
    ensures r in after.records && after.records[r].family == fam && after.records[r].deletedAt.None?
            <==> r in Entries(db, sid)
    ensures r in Entries(db, sid) ==>
              var e := Entries(db, sid)[r];
              && after.records[r].blob == e.blob && e.blob in db.blobs
              && after.records[r].recordType == e.recordType && after.records[r].stamps == e.stamps
              && after.records[r].addedBy == Text(e.addedBy) && after.records[r].editedBy == Text(e.editedBy)
    ensures after.blobs == db.blobs
  {
    var entries := Entries(db, sid);
    var plan := Plan(db, fam, caller, now, entries);
    hide IsWritten, SeqsDistinct, BlobsOk, DatesOk, UsageOk;
    WrittenFrame(db, fam, plan, after);
    if r in entries {
      assert CanRestoreEntry(db, fam, caller, r, entries[r]);
      assert EntriesOk(db, db.snapshots[sid].entries);
      assert EntryOk(db, r, entries[r]);
      assert r in plan && plan[r] == EntryRow(db, fam, caller, r, entries[r]);
    } else if r in db.records && IsLive(db, r, fam) {
      assert r in plan && plan[r] == TombstoneOf(db.records[r], now);
    }
    if r in after.records { WrittenRow(db, fam, plan, after, r); }
  }

  lemma RestoredContent(db: Db, fam: FamilyId, caller: UserId, now: TimeText, sid: SnapshotId, after: Db)
    requires Valid(db) && CanRestore(db, fam, caller, Entries(db, sid))
    requires IsRestored(db, fam, caller, now, sid, after)
    ensures LiveContent(after, fam) == SavedContent(db, Entries(db, sid))
  {
    hide Valid, CanRestore, IsRestored, Entries;
    forall r ensures r in LiveContent(after, fam) <==> r in Entries(db, sid) && Entries(db, sid)[r].blob in db.blobs {
      RestoredRow(db, fam, caller, now, sid, after, r);
    }
    forall r | r in Entries(db, sid) && Entries(db, sid)[r].blob in db.blobs
      ensures r in LiveContent(after, fam) && LiveContent(after, fam)[r] == ShowEntry(db, Entries(db, sid)[r])
    {
      RestoredRow(db, fam, caller, now, sid, after, r);
    }
  }

  /** Restoring a snapshot id that does not exist leaves no live record at all. */
  lemma RestoringNothingErasesAll(db: Db, fam: FamilyId, caller: UserId, now: TimeText, sid: SnapshotId, after: Db)
    requires Valid(db) && sid !in db.snapshots && Step(db, Restore(fam, sid, caller, now), after)
    ensures LiveContent(after, fam) == map[]
    ensures forall r :: r in db.records && IsLive(db, r, fam) ==>
              r in after.records && after.records[r].deletedAt == Some(now)
  {
    hide Valid, IsRestored;
    assert CanRestore(db, fam, caller, Entries(db, sid));
    RestoredContent(db, fam, caller, now, sid, after);
    forall r | r in db.records && IsLive(db, r, fam)
      ensures r in after.records && after.records[r].deletedAt == Some(now)
    {
      ErasedRow(db, fam, caller, now, sid, after, r);
    }
  }

  lemma ErasedRow(db: Db, fam: FamilyId, caller: UserId, now: TimeText, sid: SnapshotId, after: Db, r: RecordId)
    requires IsRestored(db, fam, caller, now, sid, after)
    requires r !in Entries(db, sid) && r in db.records && IsLive(db, r, fam)
    ensures r in after.records && after.records[r].deletedAt == Some(now)
  {
  }

  /** Column by column, what a restore writes: an entry's row has the saved content under
      the old type and author; a live row without an entry is marked deleted now and else
      keeps its content; both get the next version and a number of their own above the old
      counter. Every other row, and every other table, stays as it was. */
  lemma RestoreWrites(db: Db, fam: FamilyId, caller: UserId, now: TimeText, sid: SnapshotId, after: Db, r: RecordId)
    requires Valid(db) && CanRestore(db, fam, caller, Entries(db, sid))
    requires IsRestored(db, fam, caller, now, sid, after)
    ensures after == db.(records := after.records, nextSeq := after.nextSeq)
    ensures after.records.Keys == db.records.Keys
    ensures r in db.records ==>
              var entries, was, row := Entries(db, sid), db.records[r], after.records[r];
              if r in entries || IsLive(db, r, fam) then
                && was.family == fam && fam in db.nextSeq && fam in after.nextSeq
                && db.nextSeq[fam] <= row.seqNo < after.nextSeq[fam]
                && row.family == fam && row.version == was.version + 1
                && row.recordType == was.recordType && row.addedBy == was.addedBy
                && if r in entries then
                     && row.blob == entries[r].blob && row.stamps == entries[r].stamps
                     && Some(row.editedBy) == entries[r].editedBy && row.deletedAt == None
                   else
                     && row.blob == was.blob && row.stamps == was.stamps
                     && row.editedBy == was.editedBy && row.deletedAt == Some(now)
              else row == was
  {
    hide Valid, Structured, CanRestore, IsWritten, Plan, Entries;
    var plan := Plan(db, fam, caller, now, Entries(db, sid));
    StructureOf(db);
    PlanSound(db, fam, caller, now, sid);
    WrittenFrame(db, fam, plan, after);
    if r in db.records {
      WrittenRow(db, fam, plan, after, r);
      PlannedRow(db, fam, caller, now, sid, r);
    }
  }

  lemma PlannedRow(db: Db, fam: FamilyId, caller: UserId, now: TimeText, sid: SnapshotId, r: RecordId)
    requires Valid(db) && CanRestore(db, fam, caller, Entries(db, sid)) && r in db.records
    ensures var plan, entries, was := Plan(db, fam, caller, now, Entries(db, sid)), Entries(db, sid), db.records[r];
            && (r in plan <==> r in entries || IsLive(db, r, fam))
            && (r in entries ==>
                  && was.family == fam && plan[r].deletedAt == None
                  && plan[r].blob == entries[r].blob && plan[r].stamps == entries[r].stamps
                  && Some(plan[r].editedBy) == entries[r].editedBy)
            && (r in plan && r !in entries ==>
                  was.family == fam && plan[r] == was.(version := was.version + 1, deletedAt := Some(now)))
  {
    var entries := Entries(db, sid);
    hide SeqsDistinct, BlobsOk, DatesOk, UsageOk;
    if r in entries {
      assert CanRestoreEntry(db, fam, caller, r, entries[r]);
      assert EntriesOk(db, db.snapshots[sid].entries);
      assert EntryOk(db, r, entries[r]);
    }
  }

  // ---- what single steps leave alone ----

  /** Snapshots other than expired ones stay. */
  ghost predicate KeepsSnapshot(db: Db, after: Db, sid: SnapshotId) {
    sid in db.snapshots ==> sid in after.snapshots && after.snapshots[sid] == db.snapshots[sid]
  }

  /** Records of the family stay in it. */
  ghost predicate KeepsHome(db: Db, after: Db, fam: FamilyId) {
    forall r :: r in db.records && db.records[r].family == fam ==> r in after.records && after.records[r].family == fam
  }

  /** No record changes its family. */
  ghost predicate NobodyMoves(db: Db, after: Db) {
    forall r :: r in db.records ==> r in after.records && after.records[r].family == db.records[r].family
  }

  lemma PushOneMovesNobody(db: Db, exhausted: bool, fam: FamilyId, user: UserId, p: PushRecord)
    requires fam in db.usage && PushOne(db, exhausted, fam, user, p).Done?
    ensures var after := PushOne(db, exhausted, fam, user, p).db;
            after.snapshots == db.snapshots && NobodyMoves(db, after)
  {
  }

  lemma {:induction false} PushRunMovesNobody(db: Db, fam: FamilyId, user: UserId, batch: seq<PushRecord>)
    requires fam in db.usage && Run(db, fam, user, batch).Going?
    ensures Run(db, fam, user, batch).db.snapshots == db.snapshots
    ensures NobodyMoves(db, Run(db, fam, user, batch).db)
  {
    if batch != [] {
      hide PushOne;
      var front, p := batch[..|batch| - 1], batch[|batch| - 1];
      PushRunMovesNobody(db, fam, user, front);
      var g := Run(db, fam, user, front);
      PushOneMovesNobody(g.db, g.exhausted, fam, user, p);
    }
  }

  lemma PushMovesNobody(db: Db, fam: FamilyId, user: UserId, batch: seq<PushRecord>)
    ensures StateAfter(db, fam, user, batch).snapshots == db.snapshots
    ensures NobodyMoves(db, StateAfter(db, fam, user, batch))
  {
    hide Run;
    if fam in db.usage && batch != [] && Run(db, fam, user, batch).Going? { PushRunMovesNobody(db, fam, user, batch); }
  }

  lemma MigrationStaysHome(db: Db, p: MigrateParams, now: string)
    requires Valid(db) && Migrated(db, p, now).Success?
    ensures Migrated(db, p, now).value.0.snapshots == db.snapshots
    ensures forall f :: f != p.source ==> KeepsHome(db, Migrated(db, p, now).value.0, f)
  {
    if p.migrationId !in db.migrations {
      hide MoveAll;
      MoveAllEffect(db, p.source, p.target, p.records);
      MigrationEffect(db, p, now);
    }
  }

  lemma RestoreMovesNobody(db: Db, fam: FamilyId, caller: UserId, now: TimeText, sid: SnapshotId, after: Db)
    requires Valid(db) && CanRestore(db, fam, caller, Entries(db, sid))
    requires IsRestored(db, fam, caller, now, sid, after)
    ensures after.snapshots == db.snapshots
    ensures NobodyMoves(db, after)
  {
    hide Valid, Structured, CanRestore, IsWritten, Plan, Entries;
    var plan := Plan(db, fam, caller, now, Entries(db, sid));
    StructureOf(db);
    PlanSound(db, fam, caller, now, sid);
    WrittenFrame(db, fam, plan, after);
    forall r | r in db.records ensures after.records[r].family == db.records[r].family {
      WrittenRow(db, fam, plan, after, r);
    }
  }

  ghost predicate Leaves(e: Event, fam: FamilyId) {
    e.Migrate? && e.params.source == fam
  }

  ghost predicate Expires(e: Event, expiresAt: int) {
    e.PruneExpired? && e.now > expiresAt
  }

  lemma StepStaysHome(db: Db, e: Event, after: Db, fam: FamilyId)
    requires Valid(db) && Step(db, e, after) && !Leaves(e, fam)
    ensures KeepsHome(db, after, fam)
  {
    hide Valid, IsRestored, CanRestore, CanCreate, Migrated, HasSnapshot, StateAfter, EntriesOf, LiveRows,
         Entries, IsReferenced, StoredBytes;
    match e
    case PushBatch(f, user, batch) => PushMovesNobody(db, f, user, batch);
    case Restore(f, s, caller, at) =>
      if CanRestore(db, f, caller, Entries(db, s)) { RestoreMovesNobody(db, f, caller, at, s, after); }
    case Migrate(params, at) =>
      if Migrated(db, params, at).Success? { MigrationStaysHome(db, params, at); }
    case _ =>
      assert after.records == db.records;
  }

  lemma StepKeepsSnapshot(db: Db, e: Event, after: Db, sid: SnapshotId)
    requires Valid(db) && Step(db, e, after)
    requires sid in db.snapshots && !Expires(e, db.snapshots[sid].expiresAt)
    ensures KeepsSnapshot(db, after, sid)
  {
    assert sid < db.nextSnapshot;
    hide Valid, IsRestored, CanRestore, CanCreate, Migrated, HasSnapshot, StateAfter, EntriesOf, LiveRows,
         Entries, IsReferenced, StoredBytes;
    match e
    case PushBatch(f, user, batch) => PushMovesNobody(db, f, user, batch);
    case Restore(f, s, caller, at) =>
      if CanRestore(db, f, caller, Entries(db, s)) { RestoreMovesNobody(db, f, caller, at, s, after); }
    case Migrate(params, at) =>
      if Migrated(db, params, at).Success? { MigrationStaysHome(db, params, at); }
    case _ =>
  }

  lemma {:induction false} RunKeepsHome(es: seq<Event>, dbs: seq<Db>, i: nat, j: nat, fam: FamilyId)
    requires IsRun(es, dbs) && Valid(dbs[0]) && i <= j < |dbs|
    requires forall k :: i <= k < j ==> !Leaves(es[k], fam)
    ensures KeepsHome(dbs[i], dbs[j], fam)
  {
    hide Valid, Step, Leaves;
    if i < j {
      RunKeepsHome(es, dbs, i, j - 1, fam);
      EveryStateIsValid(es, dbs, 0, j - 1);
      assert Step(dbs[j - 1], es[j - 1], dbs[j]);
      StepStaysHome(dbs[j - 1], es[j - 1], dbs[j], fam);
    }
  }

  lemma {:induction false} RunKeepsSnapshot(es: seq<Event>, dbs: seq<Db>, i: nat, j: nat, sid: SnapshotId)
    requires IsRun(es, dbs) && Valid(dbs[0]) && i <= j < |dbs| && sid in dbs[i].snapshots
    requires forall k :: i <= k < j ==> !Expires(es[k], dbs[i].snapshots[sid].expiresAt)
    ensures KeepsSnapshot(dbs[i], dbs[j], sid)
  {
    hide Valid, Step, Expires;
    if i < j {
      RunKeepsSnapshot(es, dbs, i, j - 1, sid);
      EveryStateIsValid(es, dbs, 0, j - 1);
      assert Step(dbs[j - 1], es[j - 1], dbs[j]);
      StepKeepsSnapshot(dbs[j - 1], es[j - 1], dbs[j], sid);
    }
  }

  // ---- the round trip ----

  /** In the run, event `i` takes a snapshot of `fam` and event `j` restores it. */
  ghost predicate TakenAndRestored(es: seq<Event>, dbs: seq<Db>, i: nat, j: nat, fam: FamilyId, caller: UserId,
                                   now: TimeText)
  {
    && IsRun(es, dbs) && Valid(dbs[0]) && i < j < |es|
    && es[i].TakeSnapshot? && es[i].fam == fam && fam in dbs[i].usage
    && !HasSnapshot(dbs[i], fam, es[i].date)
    && es[j] == Restore(fam, dbs[i].nextSnapshot, caller, now)
  }

  /** As long as the snapshot has not been pruned, restoring it goes through exactly
      when none of its records has left the family by then; and it brings back
      exactly the content that was live when it was taken: the same records with the
      same bytes, type, timestamps, author and editor, and no other live record. */
  lemma SnapshotRoundTrip(es: seq<Event>, dbs: seq<Db>, i: nat, j: nat, fam: FamilyId, caller: UserId, now: TimeText)
    requires TakenAndRestored(es, dbs, i, j, fam, caller, now)
    requires dbs[i].nextSnapshot in dbs[j].snapshots
    ensures AllAtHome(dbs[j], fam, LiveRows(dbs[i], fam).Keys) ==>
              && LiveContent(dbs[j + 1], fam) == LiveContent(dbs[i], fam)
              && IsRestored(dbs[j], fam, caller, now, dbs[i].nextSnapshot, dbs[j + 1])
    ensures !AllAtHome(dbs[j], fam, LiveRows(dbs[i], fam).Keys) ==> dbs[j + 1] == dbs[j]
  {
    var date, at, sid := es[i].date, es[i].now, dbs[i].nextSnapshot;
    EveryStateIsValid(es, dbs, i, i + 1);
    EveryStateIsValid(es, dbs, i + 1, j);
    assert Step(dbs[i], es[i], dbs[i + 1]) && Step(dbs[j], es[j], dbs[j + 1]);
    SnapshotCanBeTaken(dbs[i], fam);
    hide Valid, CanCreate, HasSnapshot, IsRun, Follows, IsRestored, CanRestore, AllAtHome, Entries, LiveRows;
    TakenContent(dbs[i], fam, date, at);
    SavedContentStays(dbs[i + 1], dbs[j], sid);
    RestorableIff(dbs[j], fam, caller, sid);
    if CanRestore(dbs[j], fam, caller, Entries(dbs[j], sid)) {
      RestoredContent(dbs[j], fam, caller, now, sid, dbs[j + 1]);
    }
  }

  /** Before the snapshot expires, with no migration out of the family in between,
      the restore always goes through and brings the content back. */
  lemma UnexpiredSnapshotRoundTrip(es: seq<Event>, dbs: seq<Db>, i: nat, j: nat, fam: FamilyId, caller: UserId,
                                   now: TimeText)
    requires TakenAndRestored(es, dbs, i, j, fam, caller, now)
    requires forall k :: i < k < j ==> !Leaves(es[k], fam) && !Expires(es[k], es[i].now + SNAPSHOT_TTL)
    ensures LiveContent(dbs[j + 1], fam) == LiveContent(dbs[i], fam)
  {
    EveryStateIsValid(es, dbs, 0, i);
    assert Step(dbs[i], es[i], dbs[i + 1]);
    SnapshotCanBeTaken(dbs[i], fam);
    hide Valid, CanCreate, HasSnapshot, Leaves, Expires;
    assert dbs[i + 1] == Created(dbs[i], fam, es[i].date, es[i].now);
    RunKeepsSnapshot(es, dbs, i + 1, j, dbs[i].nextSnapshot);
    RunKeepsHome(es, dbs, i + 1, j, fam);
    SnapshotRoundTrip(es, dbs, i, j, fam, caller, now);
  }
}
