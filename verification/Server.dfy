/** The server as a state machine: every handler is one atomic step on the tables,
    because each runs in one transaction of a single-writer database
    (backend/internal/db/open.go, backend/internal/db/tx.go). */
module Server {
  import opened Wrappers
  import opened Lww
  import opened Tables
  import opened Records
  import opened Invariants
  import opened Push
  import opened Snapshots
  import opened Migrations

  datatype Event =
    | PushBatch(fam: FamilyId, user: UserId, batch: seq<PushRecord>)
    | TakeSnapshot(fam: FamilyId, date: string, now: int)
    | Restore(fam: FamilyId, sid: SnapshotId, caller: UserId, at: TimeText)
    | Migrate(params: MigrateParams, at: TimeText)
    | PruneExpired(now: int)
    | PruneOrphans
    | Reconcile
    | Elsewhere

  /** What handlers outside the sync core may do: users and families appear,
      memberships and invites come and go. */
  ghost predicate Outside(db: Db, after: Db) {
    && db.users <= after.users && "" !in after.users
    && after.usage.Keys == after.nextSeq.Keys
    && (forall f :: f in db.usage ==> f in after.usage && after.usage[f] == db.usage[f])
    && (forall f :: f in db.nextSeq ==> f in after.nextSeq && after.nextSeq[f] == db.nextSeq[f])
    && (forall f :: f in after.usage && f !in db.usage ==> after.usage[f] == 0 && after.nextSeq[f] == 1)
    && after == db.(users := after.users, usage := after.usage, nextSeq := after.nextSeq,
                    members := after.members, invites := after.invites)
  }

  ghost predicate HasSnapshot(db: Db, fam: FamilyId, date: string) {
    exists s :: IsSnapshotOf(db, s, fam, date)
  }

  ghost predicate Step(db: Db, e: Event, after: Db) {
    match e
    case PushBatch(fam, user, batch) => after == StateAfter(db, fam, user, batch)
    case TakeSnapshot(fam, date, now) =>
      after == if !HasSnapshot(db, fam, date) && CanCreate(db, fam) then Created(db, fam, date, now) else db
    case Restore(fam, sid, caller, at) =>
      if CanRestore(db, fam, caller, Entries(db, sid)) then IsRestored(db, fam, caller, at, sid, after)
      else after == db
    case Migrate(params, at) =>
      after == (match Migrated(db, params, at) case Success(r) => r.0 case Failure(_) => db)
    case PruneExpired(now) => after == WithoutExpired(db, now)
    case PruneOrphans => after == WithoutOrphans(db)
    case Reconcile => after == Reconciled(db)
    case Elsewhere => Outside(db, after)
  }

  /** The handlers, dispatched: each takes exactly the step its event names. */
  method Serve(d: Database, e: Event)
    requires Structured(d.State()) && !e.Elsewhere?
    modifies d
    ensures Step(old(d.State()), e, d.State())
  {
    hide Structured, IsRestored, CanRestore, CanCreate, Created, Migrated, Pushed, WithoutExpired, WithoutOrphans,
         Reconciled;
    match e
    case PushBatch(fam, user, batch) => var _ := PostPush(d, fam, user, batch);
    case TakeSnapshot(fam, date, now) => var _ := CreateSnapshot(d, fam, date, now);
    case Restore(fam, sid, caller, at) => var _ := RestoreSnapshot(d, fam, sid, caller, at);
    case Migrate(params, at) => var _ := MigrateSolo(d, params, at);
    case PruneExpired(now) => PruneExpiredSnapshots(d, now);
    case PruneOrphans => PruneOrphanBlobs(d);
    case Reconcile => ReconcileUsage(d);
  }

  // ---- push ----

  /** The unique (family_id, family_seq) index and the foreign keys never refuse an
      upsert by a known user in a known family. */
  lemma UpsertNeverFailsInside(db: Db, p: UpsertParams)
    requires Structured(db) && p.familyId in db.usage && p.userId in db.users
    ensures Decide(db, p) != Rejected(Infrastructure)
  {
  }

  lemma AcceptedUpsertKeeps(db: Db, p: UpsertParams)
    requires Structured(db) && Decide(db, p).Accepted?
    ensures var after := After(db, p);
            && Structured(after) && Follows(db, after)
            && after.usage == db.usage && after.users == db.users
            && forall f :: Stored(after, f) == Stored(db, f) + if f == p.familyId then |p.ciphertext| else 0
  {
    var mid, row := AddBlob(db, p.familyId, p.ciphertext), RowAfter(db, p);
    AddBlobKeeps(db, p.familyId, p.ciphertext);
    if p.recordId in db.records { assert RowOk(db, db.records[p.recordId]); }
    hide Structured, Follows, RowOk;
    assert IsNextWrite(mid, p.recordId, row);
    WriteNextKeeps(mid, p.recordId, row);
    FollowsTransitive(db, mid, WriteNext(mid, p.recordId, row));
    forall f ensures Stored(After(db, p), f) == Stored(db, f) + if f == p.familyId then |p.ciphertext| else 0 {
      AddBlobAddsBytes(db, p.familyId, p.ciphertext, f);
    }
  }

  lemma ChargeKeeps(db: Db, mid: Db, fam: FamilyId, n: nat)
    requires Valid(db) && Structured(mid) && Follows(db, mid)
    requires mid.usage == db.usage && fam in db.usage && !OverQuota(db.usage[fam], n)
    requires forall f :: Stored(mid, f) == Stored(db, f) + if f == fam then n else 0
    ensures Valid(Charge(mid, fam, n)) && Follows(db, Charge(mid, fam, n))
  {
    hide Structured, Follows;
    UsageIsNotStructural(mid, Charge(mid, fam, n).usage);
    FollowsIgnoresUsage(db, mid, Charge(mid, fam, n).usage);
    assert Charge(mid, fam, n).blobs == mid.blobs;
  }

  lemma PushOneKeeps(db: Db, exhausted: bool, fam: FamilyId, user: UserId, p: PushRecord)
    requires Valid(db) && fam in db.usage && PushOne(db, exhausted, fam, user, p).Done?
    ensures var after := PushOne(db, exhausted, fam, user, p).db;
            Valid(after) && Follows(db, after) && after.users == db.users
  {
    FollowsReflexive(db);
    hide Structured, Follows, Decide, After, Stored;
    var q := Params(fam, user, p);
    if !exhausted && !OverQuota(db.usage[fam], |p.ciphertext|) && Decide(db, q).Accepted? {
      AcceptedUpsertKeeps(db, q);
      ChargeKeeps(db, After(db, q), fam, |p.ciphertext|);
    }
  }

  lemma {:induction false} RunKeeps(db: Db, fam: FamilyId, user: UserId, batch: seq<PushRecord>)
    requires Valid(db) && fam in db.usage && Run(db, fam, user, batch).Going?
    ensures var after := Run(db, fam, user, batch).db;
            Valid(after) && Follows(db, after) && after.users == db.users
  {
    FollowsReflexive(db);
    hide Valid, Follows, PushOne;
    if batch != [] {
      var front, p := batch[..|batch| - 1], batch[|batch| - 1];
      RunKeeps(db, fam, user, front);
      var g := Run(db, fam, user, front);
      PushOneKeeps(g.db, g.exhausted, fam, user, p);
      FollowsTransitive(db, g.db, Run(db, fam, user, batch).db);
    }
  }

  /** The upsert gets as far as comparing timestamps, and cannot read one it needs. */
  predicate StampUnreadable(db: Db, fam: FamilyId, p: PushRecord) {
    match FindRow(db, p.recordId, fam)
    case None => p.recordId !in db.records && p.parentVersion == 0 && !Parseable(p.stamps)
    case Some(row) => p.parentVersion == row.version && !Mergeable(Readable(row.stamps), p.stamps)
  }

  /** Record `i` is reached within the quota, and meets such a timestamp. */
  ghost predicate AbortsAt(db: Db, fam: FamilyId, user: UserId, batch: seq<PushRecord>, i: nat)
    requires fam in db.usage
  {
    i < |batch| && var g := Run(db, fam, user, batch[..i]);
    && g.Going? && !g.exhausted && !OverQuota(g.db.usage[fam], |batch[i].ciphertext|)
    && StampUnreadable(g.db, fam, batch[i])
  }

  lemma UpsertRejectsIff(db: Db, fam: FamilyId, user: UserId, p: PushRecord)
    requires Structured(db) && fam in db.usage && user in db.users
    ensures Decide(db, Params(fam, user, p)) == Rejected(BadStamp) <==> StampUnreadable(db, fam, p)
    ensures Decide(db, Params(fam, user, p)) != Rejected(Infrastructure)
  {
    UpsertNeverFailsInside(db, Params(fam, user, p));
  }

  lemma PushOneFailsIff(db: Db, exhausted: bool, fam: FamilyId, user: UserId, p: PushRecord)
    requires Structured(db) && fam in db.usage && user in db.users
    ensures var r := PushOne(db, exhausted, fam, user, p);
            && (r.Failed? <==> !exhausted && !OverQuota(db.usage[fam], |p.ciphertext|) && StampUnreadable(db, fam, p))
            && (r.Failed? ==> r.error == BadStamp)
  {
    hide Decide, StampUnreadable, Structured;
    UpsertRejectsIff(db, fam, user, p);
  }

  /** A push by a known user in a known family is rolled back exactly if one of its
      records, reached within the quota, meets a timestamp the merge cannot read; no
      reachable state makes it fail in any other way. */
  lemma {:induction false} PushAbortsIff(db: Db, fam: FamilyId, user: UserId, batch: seq<PushRecord>)
    requires Valid(db) && fam in db.usage && user in db.users
    ensures Run(db, fam, user, batch).Aborted? <==> exists i :: AbortsAt(db, fam, user, batch, i)
    ensures Run(db, fam, user, batch).Aborted? ==> Run(db, fam, user, batch).error == BadStamp
  {
    hide Valid, AbortsAt, Run;
    if batch == [] {
      NothingAborts(db, fam, user);
    } else {
      var n := |batch| - 1;
      var front := batch[..n];
      PushAbortsIff(db, fam, user, front);
      AbortsInFront(db, fam, user, batch);
      AbortsAtLast(db, fam, user, batch);
      if Run(db, fam, user, front).Aborted? {
        var i :| AbortsAt(db, fam, user, front, i);
        assert AbortsAt(db, fam, user, batch, i);
      } else {
        assert forall i: nat :: AbortsAt(db, fam, user, batch, i) <==> i == n && AbortsAt(db, fam, user, batch, n);
      }
    }
  }

  lemma NothingAborts(db: Db, fam: FamilyId, user: UserId)
    requires fam in db.usage
    ensures Run(db, fam, user, []).Going? && forall i: nat :: !AbortsAt(db, fam, user, [], i)
  {
  }

  lemma AbortsInFront(db: Db, fam: FamilyId, user: UserId, batch: seq<PushRecord>)
    requires fam in db.usage && batch != []
    ensures var n := |batch| - 1;
            forall i: nat :: i < n ==> AbortsAt(db, fam, user, batch, i) == AbortsAt(db, fam, user, batch[..n], i)
    ensures forall i: nat :: i >= |batch| ==> !AbortsAt(db, fam, user, batch, i)
    ensures var n := |batch| - 1; forall i: nat :: i >= n ==> !AbortsAt(db, fam, user, batch[..n], i)
  {
    hide Run, StampUnreadable, OverQuota;
    var n := |batch| - 1;
    forall i: nat | i < n ensures AbortsAt(db, fam, user, batch, i) == AbortsAt(db, fam, user, batch[..n], i) {
      assert batch[..n][..i] == batch[..i];
    }
  }

  lemma AbortsAtLast(db: Db, fam: FamilyId, user: UserId, batch: seq<PushRecord>)
    requires Valid(db) && fam in db.usage && user in db.users && batch != []
    ensures var n, r := |batch| - 1, Run(db, fam, user, batch);
            var g := Run(db, fam, user, batch[..n]);
            && (g.Aborted? ==> r == g && !AbortsAt(db, fam, user, batch, n))
            && (g.Going? ==> (r.Aborted? <==> AbortsAt(db, fam, user, batch, n)))
            && (g.Going? && r.Aborted? ==> r.error == BadStamp)
  {
    hide Valid, PushOne, StampUnreadable, OverQuota;
    var front, p := batch[..|batch| - 1], batch[|batch| - 1];
    var g := Run(db, fam, user, front);
    if g.Going? {
      RunKeeps(db, fam, user, front);
      StructureOf(g.db);
      PushOneFailsIff(g.db, g.exhausted, fam, user, p);
    }
  }

  lemma StructureOf(db: Db)
    requires Valid(db)
    ensures Structured(db) && UsageOk(db)
  {
  }

  // ---- restore ----

  ghost predicate PlanIsSound(db: Db, fam: FamilyId, plan: map<RecordId, Row>) {
    forall r :: r in plan ==>
      && r in db.records && db.records[r].family == fam == plan[r].family
      && plan[r].recordType == db.records[r].recordType && plan[r].addedBy == db.records[r].addedBy
      && plan[r].version == db.records[r].version + 1
      && plan[r].blob in db.blobs && plan[r].editedBy in db.users
      && plan[r].deletedAt != Some("")
  }

  lemma PlanSound(db: Db, fam: FamilyId, caller: UserId, now: TimeText, sid: SnapshotId)
    requires Structured(db) && CanRestore(db, fam, caller, Entries(db, sid))
    ensures PlanIsSound(db, fam, Plan(db, fam, caller, now, Entries(db, sid)))
  {
  }

  /** Where each row of the result comes from. */
  lemma WrittenRow(db: Db, fam: FamilyId, plan: map<RecordId, Row>, after: Db, r: RecordId)
    requires IsWritten(db, fam, plan, plan.Keys, after) && r in after.records
    ensures r !in plan ==> r in db.records && after.records[r] == db.records[r]
    ensures r in plan ==>
              && fam in db.nextSeq && fam in after.nextSeq
              && after.records[r] == plan[r].(seqNo := after.records[r].seqNo)
              && db.nextSeq[fam] <= after.records[r].seqNo < after.nextSeq[fam]
  {
    if r in plan { assert IsPlanned(plan, db.nextSeq[fam], |plan.Keys|, after.records, r); }
  }

  lemma WrittenFrame(db: Db, fam: FamilyId, plan: map<RecordId, Row>, after: Db)
    requires IsWritten(db, fam, plan, plan.Keys, after)
    ensures after == db.(records := after.records, nextSeq := after.nextSeq)
    ensures after.nextSeq.Keys == db.nextSeq.Keys
    ensures forall f :: f in db.nextSeq ==> f in after.nextSeq && db.nextSeq[f] <= after.nextSeq[f]
    ensures after.records.Keys == db.records.Keys + plan.Keys
    ensures forall f :: f in db.nextSeq && f != fam ==> after.nextSeq[f] == db.nextSeq[f]
  {
  }

  lemma WrittenRowsOk(db: Db, fam: FamilyId, plan: map<RecordId, Row>, after: Db)
    requires Structured(db) && PlanIsSound(db, fam, plan) && IsWritten(db, fam, plan, plan.Keys, after)
    ensures RowsOk(after)
  {
    hide IsWritten;
    WrittenFrame(db, fam, plan, after);
    forall r | r in after.records ensures RowOk(after, after.records[r]) {
      WrittenRow(db, fam, plan, after, r);
      assert RowOk(db, db.records[r]);
    }
  }

  lemma WrittenDistinct(db: Db, fam: FamilyId, plan: map<RecordId, Row>, after: Db)
    requires Structured(db) && PlanIsSound(db, fam, plan) && IsWritten(db, fam, plan, plan.Keys, after)
    ensures SeqsDistinct(after)
  {
    assert DistinctSeqs(plan.Keys, after.records);
    hide IsWritten;
    WrittenFrame(db, fam, plan, after);
    forall r, s | r in after.records && s in after.records && r != s
      ensures !(after.records[r].family == after.records[s].family && after.records[r].seqNo == after.records[s].seqNo)
    {
      WrittenRow(db, fam, plan, after, r);
      WrittenRow(db, fam, plan, after, s);
      assert RowOk(db, db.records[r]) && RowOk(db, db.records[s]);
    }
  }

  lemma WrittenSnapshotsOk(db: Db, fam: FamilyId, plan: map<RecordId, Row>, after: Db)
    requires Structured(db) && PlanIsSound(db, fam, plan) && IsWritten(db, fam, plan, plan.Keys, after)
    ensures SnapshotsOk(after)
  {
  }

  lemma WrittenFollows(db: Db, fam: FamilyId, plan: map<RecordId, Row>, after: Db)
    requires Structured(db) && PlanIsSound(db, fam, plan) && IsWritten(db, fam, plan, plan.Keys, after)
    ensures Follows(db, after)
  {
    hide IsWritten;
    WrittenFrame(db, fam, plan, after);
    forall r | r in after.records ensures RowFollows(db, r, after.records[r]) {
      WrittenRow(db, fam, plan, after, r);
    }
  }

  /** A restore that goes through keeps every invariant; every row it writes gets a
      sequence number of its own above the old counter. */
  lemma RestoreKeeps(db: Db, fam: FamilyId, caller: UserId, now: TimeText, sid: SnapshotId, after: Db)
    requires Valid(db) && CanRestore(db, fam, caller, Entries(db, sid))
    requires IsRestored(db, fam, caller, now, sid, after)
    ensures Valid(after) && Follows(db, after)
  {
    var plan := Plan(db, fam, caller, now, Entries(db, sid));
    hide IsWritten, Structured, UsageOk, CanRestore, Plan, Entries, PlanIsSound;
    hide RowsOk, SeqsDistinct, SnapshotsOk, Follows;
    StructureOf(db);
    PlanSound(db, fam, caller, now, sid);
    WrittenRowsOk(db, fam, plan, after);
    WrittenDistinct(db, fam, plan, after);
    WrittenSnapshotsOk(db, fam, plan, after);
    WrittenFollows(db, fam, plan, after);
    WrittenFrame(db, fam, plan, after);
    FrameKeeps(db, after);
  }

  /** The parts of the structure that do not mention the rows. */
  lemma FrameKeeps(db: Db, after: Db)
    requires Valid(db) && after == db.(records := after.records, nextSeq := after.nextSeq)
    requires after.nextSeq.Keys == db.nextSeq.Keys
    requires forall f :: f in db.nextSeq ==> f in after.nextSeq && db.nextSeq[f] <= after.nextSeq[f]
    requires RowsOk(after) && SeqsDistinct(after) && SnapshotsOk(after)
    ensures Valid(after)
  {
  }

  // ---- snapshots and clean-up ----

  lemma CreateKeeps(db: Db, fam: FamilyId, date: string, now: int)
    requires Valid(db) && !HasSnapshot(db, fam, date) && CanCreate(db, fam)
    ensures Valid(Created(db, fam, date, now)) && Follows(db, Created(db, fam, date, now))
  {
    var after, entries := Created(db, fam, date, now), EntriesOf(LiveRows(db, fam));
    CreateFollows(db, fam, date, now);
    forall r | r in entries ensures EntryOk(after, r, entries[r]) {
      assert RowOk(db, db.records[r]);
    }
    CreateKeepsOthers(db, fam, date, now);
  }

  lemma CreateFollows(db: Db, fam: FamilyId, date: string, now: int)
    requires Structured(db)
    ensures Follows(db, Created(db, fam, date, now))
  {
  }

  lemma CreateKeepsOthers(db: Db, fam: FamilyId, date: string, now: int)
    requires Valid(db) && !HasSnapshot(db, fam, date) && CanCreate(db, fam)
    requires EntriesOk(Created(db, fam, date, now), EntriesOf(LiveRows(db, fam)))
    ensures Valid(Created(db, fam, date, now))
  {
    hide EntriesOf, LiveRows, EntryOk;
    var after := Created(db, fam, date, now);
    assert forall r :: r in db.records ==> RowOk(db, db.records[r]);
    forall s | s in after.snapshots ensures EntriesOk(after, after.snapshots[s].entries) {
      if s != db.nextSnapshot { SameEntries(db, after, after.snapshots[s].entries); }
    }
    forall s | s in db.snapshots ensures !(db.snapshots[s].family == fam && db.snapshots[s].date == date) {
      assert !IsSnapshotOf(db, s, fam, date);
    }
  }

  lemma SameEntries(db: Db, after: Db, entries: map<RecordId, Entry>)
    requires EntriesOk(db, entries)
    requires after.records == db.records && db.users <= after.users
    requires forall r :: r in entries && entries[r].blob in db.blobs ==> entries[r].blob in after.blobs
    ensures EntriesOk(after, entries)
  {
  }

  /** Fewer snapshots, and other tables the structure does not mention. */
  lemma RestIsNotStructural(db: Db, after: Db)
    requires Valid(db)
    requires after == db.(snapshots := after.snapshots, members := after.members, invites := after.invites,
                          migrations := after.migrations)
    requires forall s :: s in after.snapshots ==> s in db.snapshots && after.snapshots[s] == db.snapshots[s]
    ensures Valid(after)
  {
  }

  lemma PruneExpiredKeeps(db: Db, now: int)
    requires Valid(db)
    ensures Valid(WithoutExpired(db, now)) && Follows(db, WithoutExpired(db, now))
  {
    FollowsReflexive(db);
    hide Valid, EntriesOk;
    RestIsNotStructural(db, WithoutExpired(db, now));
  }

  /** A blob named by a row or by a snapshot entry is never pruned. */
  lemma PruneOrphansKeeps(db: Db)
    requires Valid(db)
    ensures Valid(WithoutOrphans(db)) && Follows(db, WithoutOrphans(db))
  {
    var after := WithoutOrphans(db);
    OrphansNotInRows(db);
    OrphansNotInEntries(db);
    hide RowOk, EntriesOk, IsReferenced;
    forall f | f in after.usage ensures Stored(after, f) <= Stored(db, f) {
      StoredBytesMonotone(after.blobs, db.blobs, f, db.nextBlob);
    }
  }

  lemma OrphansNotInRows(db: Db)
    requires Structured(db)
    ensures RowsOk(WithoutOrphans(db)) && Follows(db, WithoutOrphans(db))
  {
  }

  lemma OrphansNotInEntries(db: Db)
    requires Structured(db)
    ensures SnapshotsOk(WithoutOrphans(db))
  {
  }

  /** Reconciling closes the gap: each counter equals the stored bytes, under the cap. */
  lemma ReconcileKeeps(db: Db)
    requires Valid(db)
    ensures Valid(Reconciled(db)) && Follows(db, Reconciled(db))
    ensures forall f :: f in db.usage ==>
              Reconciled(db).usage[f] == Stored(Reconciled(db), f) <= db.usage[f]
  {
    FollowsReflexive(db);
    FollowsIgnoresUsage(db, db, Reconciled(db).usage);
    UsageIsNotStructural(db, Reconciled(db).usage);
    hide Structured, Follows;
  }

  lemma {:induction false} NoBlobsNoBytes(blobs: map<BlobId, Blob>, f: FamilyId, upTo: nat)
    requires forall b :: b in blobs ==> blobs[b].family != f
    ensures StoredBytes(blobs, f, upTo) == 0
  {
    if upTo > 0 { NoBlobsNoBytes(blobs, f, upTo - 1); }
  }

  lemma OutsideKeeps(db: Db, after: Db)
    requires Valid(db) && Outside(db, after)
    ensures Valid(after) && Follows(db, after)
  {
    OutsideKeepsStructure(db, after);
    OutsideKeepsUsage(db, after);
    hide Structured;
  }

  lemma OutsideKeepsStructure(db: Db, after: Db)
    requires Structured(db) && Outside(db, after)
    ensures Structured(after) && Follows(db, after)
  {
    forall r | r in db.records ensures RowOk(after, db.records[r]) {
      assert RowOk(db, db.records[r]);
    }
    forall s | s in db.snapshots ensures EntriesOk(after, db.snapshots[s].entries) {
      SameEntries(db, after, db.snapshots[s].entries);
    }
    hide EntriesOk, RowOk;
  }

  lemma OutsideKeepsUsage(db: Db, after: Db)
    requires UsageOk(db) && BlobsOk(db) && Outside(db, after)
    ensures UsageOk(after)
  {
    forall f | f in after.usage ensures Stored(after, f) <= after.usage[f] <= QUOTA_MAX_BYTES {
      if f !in db.usage { NoBlobsNoBytes(db.blobs, f, db.nextBlob); }
    }
  }

  // ---- migration ----

  lemma MigrationKeeps(db: Db, p: MigrateParams, now: string)
    requires Valid(db) && Migrated(db, p, now).Success?
    ensures var after := Migrated(db, p, now).value.0; Valid(after) && Follows(db, after)
  {
    FollowsReflexive(db);
    if p.migrationId !in db.migrations {
      hide MoveAll, Structured, Follows, Stored;
      var moved := MoveAll(db, p.source, p.target, p.records).value;
      StructureOf(db);
      MoveAllKeeps(db, p.source, p.target, p.records);
      CommitKeeps(db, moved, p, now);
    }
  }

  /** In a reachable state, a first migration goes through exactly when it is between
      two families, the caller exists and is a member of the target or invited to it
      under his address, and its records, if any, are movable and fit under 200 MiB. */
  lemma MigrationSucceedsIff(db: Db, p: MigrateParams, now: string)
    requires Valid(db) && p.migrationId !in db.migrations
    ensures Migrated(db, p, now).Success? <==>
            && p.source != p.target && p.caller in db.users
            && ((p.target, p.caller) in db.members
                || exists email :: (p.target, email) in db.invites && IsSameEmail(email, p.callerEmail))
            && (p.records == [] || (p.target in db.usage && Movable(db, p.source, p.records)
                                    && db.usage[p.target] + TotalBytes(p.records) <= 209_715_200))
  {
    StructureOf(db);
    EntitledIff(db, p);
    assert p.target in db.usage ==> db.usage[p.target] <= QUOTA_MAX_BYTES;
    hide Valid, Structured, MoveAll, Movable, MayEnter, IsSameEmail;
    if p.source != p.target {
      MoveAllSucceedsIff(db, p.source, p.target, p.records);
      if MoveAll(db, p.source, p.target, p.records).Success? {
        MoveAllKeeps(db, p.source, p.target, p.records);
      }
    }
  }

  /** And why it does not: the first obstacle in the order of the service. */
  lemma MigrationFailsWith(db: Db, p: MigrateParams, now: string)
    requires Valid(db) && p.migrationId !in db.migrations && Migrated(db, p, now).Failure?
    ensures var error := Migrated(db, p, now).error;
            && (error == SourceSameAsTarget <==> p.source == p.target)
            && (error == NotInTargetFamily <==>
                  && p.source != p.target && (p.target, p.caller) !in db.members
                  && !exists email :: (p.target, email) in db.invites && IsSameEmail(email, p.callerEmail))
            && (p.source != p.target && error != NotInTargetFamily ==>
                  && (error == IdConflict <==>
                        p.target in db.usage && exists i :: IsFirstTaken(db, p.source, p.records, i))
                  && (error == OverTheQuota <==>
                        && p.target in db.usage && Movable(db, p.source, p.records)
                        && db.usage[p.target] + TotalBytes(p.records) > 209_715_200))
  {
    StructureOf(db);
    EntitledIff(db, p);
    assert p.target in db.usage ==> db.usage[p.target] <= QUOTA_MAX_BYTES;
    hide Valid, Structured, MoveAll, Movable, MayEnter, IsSameEmail, IsFirstTaken;
    if p.source != p.target {
      MoveAllSucceedsIff(db, p.source, p.target, p.records);
      if MoveAll(db, p.source, p.target, p.records).Success? {
        MoveAllKeeps(db, p.source, p.target, p.records);
        NoneMovable(db, p.source);
        NoneTaken(db, p.source, p.records);
      } else {
        MoveAllErrors(db, p.source, p.target, p.records);
      }
    }
  }

  lemma CommitKeeps(db: Db, moved: Db, p: MigrateParams, now: string)
    requires Valid(db) && Structured(moved) && Follows(db, moved)
    requires moved.usage == db.usage && p.migrationId !in db.migrations
    requires forall f :: Stored(moved, f) == Stored(db, f) + if f == p.target then TotalBytes(p.records) else 0
    requires Commit(moved, p, now).Success?
    ensures var after := Commit(moved, p, now).value; Valid(after) && Follows(db, after)
  {
    hide Structured, Follows, Stored, TotalBytes;
    var total := TotalBytes(p.records);
    if total > 0 {
      ChargeKeeps(db, moved, p.target, total);
      BookkeepingKeeps(db, Charge(moved, p.target, total), p, now);
    } else {
      BookkeepingKeeps(db, moved, p, now);
    }
  }

  lemma BookkeepingKeeps(db: Db, charged: Db, p: MigrateParams, now: string)
    requires Valid(charged) && Follows(db, charged) && p.migrationId !in db.migrations
    ensures var after := charged.(members := charged.members - {(p.source, p.caller)},
              migrations := charged.migrations[p.migrationId := Migration(p.caller, now, |p.records|)]);
            Valid(after) && Follows(db, after)
  {
    hide Valid;
    RestIsNotStructural(charged, charged.(members := charged.members - {(p.source, p.caller)},
              migrations := charged.migrations[p.migrationId := Migration(p.caller, now, |p.records|)]));
  }

  // ---- every step, and every run ----

  lemma StepKeeps(db: Db, e: Event, after: Db)
    requires Valid(db) && Step(db, e, after)
    ensures Valid(after) && Follows(db, after)
  {
    StructureOf(db);
    FollowsReflexive(db);
    hide Valid, Structured, Follows, IsRestored, CanRestore, CanCreate, Migrated, WithoutExpired, WithoutOrphans,
         Reconciled, HasSnapshot, Created, Outside, Run;
    match e
    case PushBatch(fam, user, batch) =>
      if fam in db.usage && batch != [] && Run(db, fam, user, batch).Going? { RunKeeps(db, fam, user, batch); }
    case TakeSnapshot(fam, date, now) =>
      if !HasSnapshot(db, fam, date) && CanCreate(db, fam) { CreateKeeps(db, fam, date, now); }
    case Restore(fam, sid, caller, at) =>
      if CanRestore(db, fam, caller, Entries(db, sid)) { RestoreKeeps(db, fam, caller, at, sid, after); }
    case Migrate(params, at) =>
      if Migrated(db, params, at).Success? { MigrationKeeps(db, params, at); }
    case PruneExpired(now) => PruneExpiredKeeps(db, now);
    case PruneOrphans => PruneOrphansKeeps(db);
    case Reconcile => ReconcileKeeps(db);
    case Elsewhere => OutsideKeeps(db, after);
  }

  ghost predicate IsRun(es: seq<Event>, dbs: seq<Db>) {
    |dbs| == |es| + 1 && forall i :: 0 <= i < |es| ==> Step(dbs[i], es[i], dbs[i + 1])
  }

  const EMPTY: Db := Db({}, map[], map[], map[], map[], 0, map[], 0, {}, {}, map[])

  lemma EmptyIsValid()
    ensures Valid(EMPTY)
  {
  }

  /** In every state of every run the invariants hold, and it follows every earlier
      state: counters only rise, sequence numbers are distinct and below them, every
      write is above the old counter, usage covers the blobs and stays under the cap. */
  lemma {:induction false} EveryStateIsValid(es: seq<Event>, dbs: seq<Db>, i: nat, j: nat)
    requires IsRun(es, dbs) && Valid(dbs[0]) && i <= j < |dbs|
    ensures Valid(dbs[i]) && Valid(dbs[j]) && Follows(dbs[i], dbs[j])
    decreases j
  {
    hide Valid, Follows, Step;
    if i < j {
      EveryStateIsValid(es, dbs, i, j - 1);
      assert Step(dbs[j - 1], es[j - 1], dbs[j]);
      StepKeeps(dbs[j - 1], es[j - 1], dbs[j]);
      FollowsTransitive(dbs[i], dbs[j - 1], dbs[j]);
    } else {
      if i > 0 {
        EveryStateIsValid(es, dbs, i - 1, i - 1);
        assert Step(dbs[i - 1], es[i - 1], dbs[i]);
        StepKeeps(dbs[i - 1], es[i - 1], dbs[i]);
      }
      StructureOf(dbs[i]);
      FollowsOneself(dbs[i]);
    }
  }

  /** Once a migration has committed, every later call with its id, however much has
      happened in between, changes nothing; the same caller gets the stored result,
      another one is refused. */
  lemma MigrationIsIdempotent(es: seq<Event>, dbs: seq<Db>, i: nat, j: nat, p: MigrateParams, at: TimeText,
                              q: MigrateParams, later: TimeText)
    requires IsRun(es, dbs) && Valid(dbs[0]) && i < j < |es|
    requires es[i] == Migrate(p, at) && Migrated(dbs[i], p, at).Success?
    requires es[j] == Migrate(q, later) && q.migrationId == p.migrationId
    ensures dbs[j + 1] == dbs[j]
    ensures Migrated(dbs[j], q, later)
         == if q.source == q.target then Failure(SourceSameAsTarget)
            else if q.caller != p.caller then Failure(NotInTargetFamily)
            else Success((dbs[j], Migrated(dbs[i], p, at).value.1))
  {
    assert Step(dbs[i], es[i], dbs[i + 1]) && Step(dbs[j], es[j], dbs[j + 1]);
    CommitIsRecorded(dbs[i], p, at);
    EveryStateIsValid(es, dbs, i + 1, j);
    RecordsStay(dbs[i + 1], dbs[j]);
    hide Valid, Follows, IsRun, MoveAll, Commit;
  }

  lemma CommitIsRecorded(db: Db, p: MigrateParams, now: string)
    requires Migrated(db, p, now).Success?
    ensures var (after, result) := Migrated(db, p, now).value;
            && p.migrationId in after.migrations
            && var m := after.migrations[p.migrationId];
            && m.user == p.caller && result == MigrateResult(m.committedAt, m.recordCount)
  {
    hide MoveAll;
  }

  lemma RecordsStay(db: Db, after: Db)
    requires Follows(db, after)
    ensures forall m :: m in db.migrations ==> m in after.migrations && after.migrations[m] == db.migrations[m]
  {
  }

  lemma FollowsOneself(db: Db)
    requires Structured(db)
    ensures Follows(db, db)
  {
  }
}
