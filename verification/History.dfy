/** Where every version and every byte comes from: a log of accepted writes kept
    beside the tables. It is not part of the system; it says what the tables mean. */
module History {
  import opened Wrappers
  import opened Tables
  import opened Records
  import opened Invariants
  import opened Push
  import opened Snapshots
  import opened Migrations
  import opened Server

  /** What one writer supplies together. */
  datatype Content = Content(ciphertext: bytes, editedBy: UserId, stamps: MapText)

  datatype Write =
    | Sent(record: RecordId, content: Content, parentVersion: Option<int>)
    | PutBack(records: set<RecordId>)

  predicate Touches(w: Write, r: RecordId) {
    match w
    case Sent(record, _, _) => record == r
    case PutBack(records) => r in records
  }

  /** How often record `r` has been written. */
  function Writes(log: seq<Write>, r: RecordId): nat {
    if log == [] then 0
    else Writes(log[..|log| - 1], r) + if Touches(log[|log| - 1], r) then 1 else 0
  }

  lemma WritesSnoc(log: seq<Write>, w: Write, r: RecordId)
    ensures Writes(log + [w], r) == Writes(log, r) + if Touches(w, r) then 1 else 0
  {
  }

  // ---- what each step adds to the log ----

  function PushLog(user: UserId, batch: seq<PushRecord>, ds: seq<Decision>): seq<Write>
    requires |ds| == |batch|
  {
    if batch == [] then []
    else
      var n := |batch| - 1;
      var front, p := PushLog(user, batch[..n], ds[..n]), batch[n];
      if ds[n].Taken? then
        front + [Sent(p.recordId, Content(p.ciphertext, user, Json(p.stamps)), Some(p.parentVersion))]
      else front
  }

  function MigrateLog(recs: seq<MigrateRecord>): seq<Write> {
    if recs == [] then []
    else
      var rec := recs[|recs| - 1];
      MigrateLog(recs[..|recs| - 1]) + [Sent(rec.recordId, Content(rec.blob, rec.editedBy, rec.stamps), None)]
  }

  ghost function StepLog(db: Db, e: Event): seq<Write> {
    match e
    case PushBatch(fam, user, batch) =>
      if fam in db.usage && Run(db, fam, user, batch).Going? then
        PushLog(user, batch, Run(db, fam, user, batch).decisions)
      else []
    case Restore(fam, sid, caller, at) =>
      if CanRestore(db, fam, caller, Entries(db, sid)) then
        [PutBack(Plan(db, fam, caller, at, Entries(db, sid)).Keys)]
      else []
    case Migrate(params, at) =>
      if params.migrationId !in db.migrations && Migrated(db, params, at).Success? then MigrateLog(params.records)
      else []
    case _ => []
  }

  // ---- what the log says of the tables ----

  ghost predicate Supplied(log: seq<Write>, r: RecordId, c: Content) {
    exists i :: 0 <= i < |log| && log[i].Sent? && log[i].record == r && log[i].content == c
  }

  /** A record's version is the number of writes it has had. */
  ghost predicate VersionsCounted(db: Db, log: seq<Write>) {
    forall r :: Writes(log, r) == if r in db.records then db.records[r].version else 0
  }

  /** Each accepted push named the version just before it. */
  ghost predicate ParentsMatch(log: seq<Write>) {
    forall i :: 0 <= i < |log| && log[i].Sent? && log[i].parentVersion.Some? ==>
      log[i].parentVersion.value == Writes(log[..i], log[i].record)
  }

  ghost predicate RowSupplied(db: Db, log: seq<Write>, r: RecordId, row: Row) {
    row.blob in db.blobs && Supplied(log, r, Content(db.blobs[row.blob].ciphertext, row.editedBy, row.stamps))
  }

  ghost predicate EntrySupplied(db: Db, log: seq<Write>, r: RecordId, e: Entry) {
    e.blob in db.blobs && Supplied(log, r, Content(db.blobs[e.blob].ciphertext, Text(e.editedBy), e.stamps))
  }

  /** Bytes, editor and timestamps of every row were supplied together, by one single
      write of that record; and so were those of every snapshot entry. */
  ghost predicate RowsSupplied(db: Db, log: seq<Write>) {
    forall r :: r in db.records ==> RowSupplied(db, log, r, db.records[r])
  }

  ghost predicate EntriesSupplied(db: Db, log: seq<Write>) {
    forall s, r :: s in db.snapshots && r in db.snapshots[s].entries ==>
      EntrySupplied(db, log, r, db.snapshots[s].entries[r])
  }

  ghost predicate Told(db: Db, log: seq<Write>) {
    VersionsCounted(db, log) && ParentsMatch(log) && RowsSupplied(db, log) && EntriesSupplied(db, log)
  }

  lemma SuppliedStays(log: seq<Write>, more: seq<Write>, r: RecordId, c: Content)
    requires Supplied(log, r, c)
    ensures Supplied(log + more, r, c)
  {
    var i :| 0 <= i < |log| && log[i].Sent? && log[i].record == r && log[i].content == c;
    assert (log + more)[i] == log[i];
  }

  lemma SuppliedNow(log: seq<Write>, r: RecordId, c: Content, parent: Option<int>)
    ensures Supplied(log + [Sent(r, c, parent)], r, c)
  {
    assert (log + [Sent(r, c, parent)])[|log|] == Sent(r, c, parent);
  }

  lemma ParentsSnoc(log: seq<Write>, w: Write)
    requires ParentsMatch(log)
    requires w.Sent? && w.parentVersion.Some? ==> w.parentVersion.value == Writes(log, w.record)
    ensures ParentsMatch(log + [w])
  {
    var more := log + [w];
    forall i | 0 <= i < |more| && more[i].Sent? && more[i].parentVersion.Some?
      ensures more[i].parentVersion.value == Writes(more[..i], more[i].record)
    {
      if i < |log| {
        assert more[i] == log[i] && more[..i] == log[..i];
      } else {
        assert more[..i] == log;
      }
    }
  }

  // ---- one sent record ----

  /** A blob and a row that names it are new; nothing else has changed that matters here. */
  ghost predicate IsSend(db: Db, after: Db, id: RecordId, ciphertext: bytes, row: Row) {
    && db.nextBlob !in db.blobs && row.blob == db.nextBlob
    && (exists fam :: after.blobs == db.blobs[db.nextBlob := Blob(fam, ciphertext)])
    && after.records == db.records[id := row]
    && after.snapshots == db.snapshots
    && row.version == (if id in db.records then db.records[id].version else 0) + 1
  }

  lemma SendKeepsRows(db: Db, log: seq<Write>, after: Db, id: RecordId, ciphertext: bytes,
          row: Row, parent: Option<int>)
    requires RowsSupplied(db, log) && IsSend(db, after, id, ciphertext, row)
    ensures RowsSupplied(after, log + [Sent(id, Content(ciphertext, row.editedBy, row.stamps), parent)])
  {
    var w := Sent(id, Content(ciphertext, row.editedBy, row.stamps), parent);
    SuppliedNow(log, id, w.content, parent);
    hide Supplied;
    forall r | r in after.records ensures RowSupplied(after, log + [w], r, after.records[r]) {
      if r != id {
        assert RowSupplied(db, log, r, db.records[r]);
        var kept := db.records[r];
        SuppliedStays(log, [w], r, Content(db.blobs[kept.blob].ciphertext, kept.editedBy, kept.stamps));
      }
    }
  }

  lemma SendKeepsEntries(db: Db, log: seq<Write>, after: Db, id: RecordId, ciphertext: bytes, row: Row, w: Write)
    requires EntriesSupplied(db, log) && IsSend(db, after, id, ciphertext, row)
    ensures EntriesSupplied(after, log + [w])
  {
    hide Supplied;
    forall s, r | s in after.snapshots && r in after.snapshots[s].entries
      ensures EntrySupplied(after, log + [w], r, after.snapshots[s].entries[r])
    {
      var e := db.snapshots[s].entries[r];
      assert EntrySupplied(db, log, r, e);
      SuppliedStays(log, [w], r, Content(db.blobs[e.blob].ciphertext, Text(e.editedBy), e.stamps));
    }
  }

  lemma SendKeepsTold(db: Db, log: seq<Write>, after: Db, id: RecordId, ciphertext: bytes,
          row: Row, parent: Option<int>)
    requires Told(db, log) && IsSend(db, after, id, ciphertext, row)
    requires parent.Some? ==> parent.value == row.version - 1
    ensures Told(after, log + [Sent(id, Content(ciphertext, row.editedBy, row.stamps), parent)])
  {
    var w := Sent(id, Content(ciphertext, row.editedBy, row.stamps), parent);
    SendKeepsRows(db, log, after, id, ciphertext, row, parent);
    SendKeepsEntries(db, log, after, id, ciphertext, row, w);
    hide RowsSupplied, EntriesSupplied, Writes;
    forall r ensures Writes(log + [w], r) == if r in after.records then after.records[r].version else 0 {
      WritesSnoc(log, w, r);
    }
    assert parent.Some? ==> parent.value == Writes(log, id);
    ParentsSnoc(log, w);
  }

  lemma ToldIgnoresUsage(db: Db, log: seq<Write>, usage: map<FamilyId, int>)
    requires Told(db, log)
    ensures Told(db.(usage := usage), log)
  {
  }

  // ---- push ----

  lemma UpsertIsSend(db: Db, p: UpsertParams)
    requires Structured(db) && Decide(db, p).Accepted?
    ensures p.familyId in db.nextSeq
    ensures IsSend(db, After(db, p), p.recordId, p.ciphertext, RowAfter(db, p))
    ensures p.parentVersion == RowAfter(db, p).version - 1
    ensures RowAfter(db, p).editedBy == p.userId && RowAfter(db, p).stamps == Json(p.stamps)
  {
  }

  lemma {:induction false} PushKeepsTold(db: Db, log: seq<Write>, fam: FamilyId, user: UserId, batch: seq<PushRecord>)
    requires Valid(db) && Told(db, log) && fam in db.usage && Run(db, fam, user, batch).Going?
    ensures var g := Run(db, fam, user, batch); Told(g.db, log + PushLog(user, batch, g.decisions))
  {
    hide Valid, Told, Structured, Run, PushOne, PushLog;
    if batch == [] {
      EmptyRun(db, fam, user);
      EmptyLog(user);
      assert log + [] == log;
    } else {
      var front, p := batch[..|batch| - 1], batch[|batch| - 1];
      assert batch == front + [p];
      RunSnoc(db, fam, user, front, p);
      PushKeepsTold(db, log, fam, user, front);
      RunKeeps(db, fam, user, front);
      var g := Run(db, fam, user, front);
      StructureOf(g.db);
      var one := PushOne(g.db, g.exhausted, fam, user, p);
      PushOneKeepsTold(g.db, log + PushLog(user, front, g.decisions), g.exhausted, fam, user, p);
      PushLogSnoc(user, front, p, g.decisions, one.decision);
      Associates(log, PushLog(user, front, g.decisions), OneLog(user, p, one.decision));
    }
  }

  lemma EmptyLog(user: UserId)
    ensures PushLog(user, [], []) == []
  {
  }

  lemma EmptyRun(db: Db, fam: FamilyId, user: UserId)
    requires fam in db.usage
    ensures Run(db, fam, user, []) == Going(db, false, [])
  {
  }

  lemma Associates(a: seq<Write>, b: seq<Write>, c: seq<Write>)
    ensures a + b + c == a + (b + c)
  {
  }

  lemma RunSnoc(db: Db, fam: FamilyId, user: UserId, front: seq<PushRecord>, p: PushRecord)
    requires fam in db.usage && Run(db, fam, user, front + [p]).Going?
    ensures Run(db, fam, user, front).Going?
    ensures var g := Run(db, fam, user, front);
            var one := PushOne(g.db, g.exhausted, fam, user, p);
            one.Done? && Run(db, fam, user, front + [p]) == Going(one.db, one.exhausted, g.decisions + [one.decision])
  {
  }

  lemma PushLogSnoc(user: UserId, batch: seq<PushRecord>, p: PushRecord, ds: seq<Decision>, d: Decision)
    requires |ds| == |batch|
    ensures PushLog(user, batch + [p], ds + [d]) == PushLog(user, batch, ds) + OneLog(user, p, d)
  {
  }

  function OneLog(user: UserId, p: PushRecord, d: Decision): seq<Write> {
    if d.Taken? then [Sent(p.recordId, Content(p.ciphertext, user, Json(p.stamps)), Some(p.parentVersion))] else []
  }

  lemma PushOneKeepsTold(db: Db, log: seq<Write>, exhausted: bool, fam: FamilyId, user: UserId, p: PushRecord)
    requires Structured(db) && Told(db, log) && fam in db.usage && PushOne(db, exhausted, fam, user, p).Done?
    ensures var one := PushOne(db, exhausted, fam, user, p); Told(one.db, log + OneLog(user, p, one.decision))
  {
    hide Structured, Told, Decide, After;
    var q := Params(fam, user, p);
    if !exhausted && !OverQuota(db.usage[fam], |p.ciphertext|) && Decide(db, q).Accepted? {
      UpsertIsSend(db, q);
      SendKeepsTold(db, log, After(db, q), p.recordId, p.ciphertext, RowAfter(db, q), Some(p.parentVersion));
      ToldIgnoresUsage(After(db, q), log + OneLog(user, p, PushOne(db, exhausted, fam, user, p).decision),
                       PushOne(db, exhausted, fam, user, p).db.usage);
    } else {
      assert log + [] == log;
    }
  }

  // ---- migration ----

  lemma MoveIsSend(db: Db, source: FamilyId, target: FamilyId, rec: MigrateRecord)
    requires Structured(db) && MoveOne(db, source, target, rec).Success?
    ensures target in db.nextSeq
    ensures var row := MovedRow(db, source, target, rec);
            && IsSend(db, MoveOne(db, source, target, rec).value, rec.recordId, rec.blob, row)
            && row.editedBy == rec.editedBy && row.stamps == rec.stamps
  {
  }

  lemma {:induction false} MoveAllKeepsTold(db: Db, log: seq<Write>, source: FamilyId,
          target: FamilyId, recs: seq<MigrateRecord>)
    requires Structured(db) && Told(db, log) && MoveAll(db, source, target, recs).Success?
    ensures Told(MoveAll(db, source, target, recs).value, log + MigrateLog(recs))
  {
    hide Told, Structured, MoveOne;
    if recs == [] {
      assert log + [] == log;
    } else {
      var front, rec := recs[..|recs| - 1], recs[|recs| - 1];
      MoveAllKeepsTold(db, log, source, target, front);
      MoveAllKeeps(db, source, target, front);
      var before := MoveAll(db, source, target, front).value;
      MoveIsSend(before, source, target, rec);
      SendKeepsTold(before, log + MigrateLog(front), MoveOne(before, source, target, rec).value,
                    rec.recordId, rec.blob, MovedRow(before, source, target, rec), None);
      assert log + MigrateLog(recs)
          == log + MigrateLog(front) + [Sent(rec.recordId, Content(rec.blob, rec.editedBy, rec.stamps), None)];
    }
  }

  /** The log is about rows, blobs and snapshots only. */
  lemma SameTablesTold(db: Db, after: Db, log: seq<Write>)
    requires Told(db, log) && after.records == db.records
    requires forall b :: b in after.blobs ==> b in db.blobs && after.blobs[b] == db.blobs[b]
    requires forall r :: r in db.records ==> db.records[r].blob in after.blobs
    requires forall s :: s in after.snapshots ==> s in db.snapshots && after.snapshots[s] == db.snapshots[s]
    requires forall s, r :: s in after.snapshots && r in after.snapshots[s].entries ==>
               after.snapshots[s].entries[r].blob in after.blobs
    ensures Told(after, log)
  {
  }

  /** In a reachable state no row and no entry lacks its blob. */
  lemma BlobsPresent(db: Db)
    requires Structured(db)
    ensures forall r :: r in db.records ==> db.records[r].blob in db.blobs
    ensures forall s, r :: s in db.snapshots && r in db.snapshots[s].entries ==>
              db.snapshots[s].entries[r].blob in db.blobs
  {
  }

  lemma MigrationKeepsTold(db: Db, log: seq<Write>, p: MigrateParams, now: string)
    requires Valid(db) && Told(db, log) && Migrated(db, p, now).Success? && p.migrationId !in db.migrations
    ensures Told(Migrated(db, p, now).value.0, log + MigrateLog(p.records))
  {
    hide Told, MoveAll, Structured;
    var moved := MoveAll(db, p.source, p.target, p.records).value;
    MoveAllKeepsTold(db, log, p.source, p.target, p.records);
    MoveAllKeeps(db, p.source, p.target, p.records);
    BlobsPresent(moved);
    SameTablesTold(moved, Migrated(db, p, now).value.0, log + MigrateLog(p.records));
  }

  // ---- restore ----

  /** A planned row shows an entry of the snapshot, or what it showed before. */
  lemma PlanSupplied(db: Db, log: seq<Write>, fam: FamilyId, caller: UserId, now: TimeText,
          sid: SnapshotId, r: RecordId)
    requires Structured(db) && Told(db, log) && CanRestore(db, fam, caller, Entries(db, sid))
    requires r in Plan(db, fam, caller, now, Entries(db, sid))
    ensures RowSupplied(db, log, r, Plan(db, fam, caller, now, Entries(db, sid))[r])
  {
  }

  lemma RestoreKeepsTold(db: Db, log: seq<Write>, fam: FamilyId, caller: UserId, now: TimeText,
          sid: SnapshotId, after: Db)
    requires Valid(db) && Told(db, log) && CanRestore(db, fam, caller, Entries(db, sid))
    requires IsRestored(db, fam, caller, now, sid, after)
    ensures Told(after, log + [PutBack(Plan(db, fam, caller, now, Entries(db, sid)).Keys)])
  {
    var plan := Plan(db, fam, caller, now, Entries(db, sid));
    var w := PutBack(plan.Keys);
    hide IsWritten, Supplied, Writes, Plan, CanRestore, Structured, Entries;
    StructureOf(db);
    PlanSound(db, fam, caller, now, sid);
    WrittenFrame(db, fam, plan, after);
    forall r ensures Writes(log + [w], r) == if r in after.records then after.records[r].version else 0 {
      WritesSnoc(log, w, r);
      if r in after.records { WrittenRow(db, fam, plan, after, r); }
    }
    forall r | r in after.records ensures RowSupplied(after, log + [w], r, after.records[r]) {
      WrittenRow(db, fam, plan, after, r);
      var row := after.records[r];
      if r in plan { PlanSupplied(db, log, fam, caller, now, sid, r); }
      else { assert RowSupplied(db, log, r, db.records[r]); }
      SuppliedStays(log, [w], r, Content(db.blobs[row.blob].ciphertext, row.editedBy, row.stamps));
    }
    PutBackKeepsEntries(db, log, after, w);
    ParentsSnoc(log, w);
  }

  lemma PutBackKeepsEntries(db: Db, log: seq<Write>, after: Db, w: Write)
    requires EntriesSupplied(db, log) && after.snapshots == db.snapshots && after.blobs == db.blobs
    ensures EntriesSupplied(after, log + [w])
  {
    hide Supplied;
    forall s, r | s in after.snapshots && r in after.snapshots[s].entries
      ensures EntrySupplied(after, log + [w], r, after.snapshots[s].entries[r])
    {
      var e := db.snapshots[s].entries[r];
      assert EntrySupplied(db, log, r, e);
      SuppliedStays(log, [w], r, Content(db.blobs[e.blob].ciphertext, Text(e.editedBy), e.stamps));
    }
  }

  // ---- snapshots ----

  lemma CreateKeepsTold(db: Db, log: seq<Write>, fam: FamilyId, date: string, now: int)
    requires Valid(db) && Told(db, log)
    ensures Told(Created(db, fam, date, now), log)
  {
    var after := Created(db, fam, date, now);
    forall r | r in db.records ensures RowSupplied(after, log, r, db.records[r]) {
      assert RowSupplied(db, log, r, db.records[r]);
    }
    forall r | r in LiveRows(db, fam) ensures EntrySupplied(after, log, r, EntryOf(db.records[r])) {
      assert RowSupplied(db, log, r, db.records[r]) && RowOk(db, db.records[r]);
    }
    hide Supplied, RowOk;
    forall s, r | s in after.snapshots && r in after.snapshots[s].entries
      ensures EntrySupplied(after, log, r, after.snapshots[s].entries[r])
    {
      if s != db.nextSnapshot { assert EntrySupplied(db, log, r, db.snapshots[s].entries[r]); }
    }
  }

  // ---- every step, and every run ----

  lemma StepKeepsTold(db: Db, log: seq<Write>, e: Event, after: Db)
    requires Valid(db) && Told(db, log) && Step(db, e, after)
    ensures Told(after, log + StepLog(db, e))
  {
    StructureOf(db);
    BlobsPresent(db);
    assert log + [] == log;
    hide Valid, Structured, Told, IsRestored, CanRestore, CanCreate, Migrated, HasSnapshot, Created, Run, Entries, Plan,
         IsReferenced, MigrateLog;
    match e
    case PushBatch(fam, user, batch) =>
      if fam in db.usage && Run(db, fam, user, batch).Going? {
        PushKeepsTold(db, log, fam, user, batch);
        if batch == [] { EmptyRun(db, fam, user); }
      }
    case TakeSnapshot(fam, date, now) => CreateKeepsTold(db, log, fam, date, now);
    case Restore(fam, sid, caller, at) =>
      if CanRestore(db, fam, caller, Entries(db, sid)) { RestoreKeepsTold(db, log, fam, caller, at, sid, after); }
    case Migrate(params, at) =>
      if Migrated(db, params, at).Success? {
        if params.migrationId !in db.migrations { MigrationKeepsTold(db, log, params, at); }
        else { RepeatChangesNothing(db, params, at); }
      }
    case PruneExpired(now) => SameTablesTold(db, after, log);
    case PruneOrphans => PruneOrphansKeepsTold(db, log);
    case Reconcile => ToldIgnoresUsage(db, log, after.usage);
    case Elsewhere => SameTablesTold(db, after, log);
  }

  lemma RepeatChangesNothing(db: Db, p: MigrateParams, now: string)
    requires p.migrationId in db.migrations && Migrated(db, p, now).Success?
    ensures Migrated(db, p, now).value.0 == db
  {
  }

  lemma PruneOrphansKeepsTold(db: Db, log: seq<Write>)
    requires Valid(db) && Told(db, log)
    ensures Told(WithoutOrphans(db), log)
  {
    PruneOrphansKeeps(db);
    hide Told, Follows, Structured;
    BlobsPresent(WithoutOrphans(db));
    SameTablesTold(db, WithoutOrphans(db), log);
  }

  lemma NothingToTell()
    ensures Told(EMPTY, [])
  {
  }

  /** The log along a run. */
  ghost function RunLog(es: seq<Event>, dbs: seq<Db>, n: nat): seq<Write>
    requires n <= |es| && |dbs| == |es| + 1
  {
    if n == 0 then [] else RunLog(es, dbs, n - 1) + StepLog(dbs[n - 1], es[n - 1])
  }

  /** In every state of every run from the empty tables: each record's version is the
      number of writes it has had, each accepted push named the version just before
      it, and the bytes, editor and timestamps of every row, and of every snapshot
      entry, were supplied together by one single push or migrated record. */
  lemma {:induction false} LogTellsTheTables(es: seq<Event>, dbs: seq<Db>, n: nat)
    requires IsRun(es, dbs) && dbs[0] == EMPTY && n <= |es|
    ensures Told(dbs[n], RunLog(es, dbs, n))
  {
    EmptyIsValid();
    NothingToTell();
    hide Valid, Step, Told, StepLog;
    if n > 0 {
      LogTellsTheTables(es, dbs, n - 1);
      EveryStateIsValid(es, dbs, 0, n - 1);
      assert Step(dbs[n - 1], es[n - 1], dbs[n]);
      StepKeepsTold(dbs[n - 1], RunLog(es, dbs, n - 1), es[n - 1], dbs[n]);
    }
  }

  lemma {:induction false} WritesGrow(log: seq<Write>, i: nat, r: RecordId)
    requires i <= |log|
    ensures Writes(log[..i], r) <= Writes(log, r)
    decreases |log|
  {
    if i == |log| {
      assert log[..i] == log;
    } else {
      assert log[..|log| - 1][..i] == log[..i];
      WritesGrow(log[..|log| - 1], i, r);
    }
  }

  predicate IsPushOf(w: Write, r: RecordId) {
    w.Sent? && w.record == r && w.parentVersion.Some?
  }

  lemma LaterParentsAreLater(log: seq<Write>, r: RecordId, i: nat, j: nat)
    requires ParentsMatch(log) && i < j < |log| && IsPushOf(log[i], r) && IsPushOf(log[j], r)
    ensures log[i].parentVersion.value < log[j].parentVersion.value
  {
    assert log[..i + 1] == log[..i] + [log[i]];
    WritesSnoc(log[..i], log[i], r);
    WritesGrow(log[..j], i + 1, r);
    assert log[..j][..i + 1] == log[..i + 1];
  }

  /** No lost update: of all the pushes of one record that name the same parent
      version, in whatever family and however many writes apart, at most one is ever
      accepted; later accepted pushes name later versions. */
  lemma NoLostUpdate(es: seq<Event>, dbs: seq<Db>, r: RecordId, i: nat, j: nat)
    requires IsRun(es, dbs) && dbs[0] == EMPTY
    requires var log := RunLog(es, dbs, |es|);
             i < j < |log| && IsPushOf(log[i], r) && IsPushOf(log[j], r)
    ensures var log := RunLog(es, dbs, |es|);
            log[i].parentVersion.value < log[j].parentVersion.value
  {
    LogTellsTheTables(es, dbs, |es|);
    hide IsRun, RunLog, VersionsCounted, RowsSupplied, EntriesSupplied, ParentsMatch, IsPushOf;
    LaterParentsAreLater(RunLog(es, dbs, |es|), r, i, j);
  }
}
