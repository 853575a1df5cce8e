/** Which timestamps the tables hold: an accepted push stores readable ones only, so
    no push is ever rolled back unless a migration has brought in others. */
module Timestamps {
  import opened Wrappers
  import opened Lww
  import opened Tables
  import opened Records
  import opened Invariants
  import opened Push
  import opened Snapshots
  import opened Migrations
  import opened Server

  predicate IsReadable(m: MapText) {
    Parseable(Readable(m))
  }

  ghost predicate RowsReadable(db: Db) {
    forall r :: r in db.records ==> IsReadable(db.records[r].stamps)
  }

  ghost predicate EntriesReadable(db: Db) {
    forall s, r :: s in db.snapshots && r in db.snapshots[s].entries ==> IsReadable(db.snapshots[s].entries[r].stamps)
  }

  /** Every stored timestamp map is readable. */
  ghost predicate AllReadable(db: Db) {
    RowsReadable(db) && EntriesReadable(db)
  }

  /** The records of a migration carry readable timestamps. */
  predicate BringsReadable(e: Event) {
    e.Migrate? ==> forall i :: 0 <= i < |e.params.records| ==> IsReadable(e.params.records[i].stamps)
  }

  lemma PushOneKeepsReadable(db: Db, exhausted: bool, fam: FamilyId, user: UserId, p: PushRecord)
    requires AllReadable(db) && fam in db.usage && PushOne(db, exhausted, fam, user, p).Done?
    ensures AllReadable(PushOne(db, exhausted, fam, user, p).db)
  {
  }

  lemma {:induction false} RunKeepsReadable(db: Db, fam: FamilyId, user: UserId, batch: seq<PushRecord>)
    requires AllReadable(db) && fam in db.usage && Run(db, fam, user, batch).Going?
    ensures AllReadable(Run(db, fam, user, batch).db)
  {
    if batch != [] {
      hide AllReadable, PushOne;
      var front, p := batch[..|batch| - 1], batch[|batch| - 1];
      RunKeepsReadable(db, fam, user, front);
      var g := Run(db, fam, user, front);
      PushOneKeepsReadable(g.db, g.exhausted, fam, user, p);
    }
  }

  lemma MoveOneKeepsReadable(db: Db, source: FamilyId, target: FamilyId, rec: MigrateRecord)
    requires AllReadable(db) && IsReadable(rec.stamps) && MoveOne(db, source, target, rec).Success?
    ensures AllReadable(MoveOne(db, source, target, rec).value)
  {
  }

  lemma {:induction false} MoveAllKeepsReadable(db: Db, source: FamilyId, target: FamilyId, recs: seq<MigrateRecord>)
    requires AllReadable(db) && forall i :: 0 <= i < |recs| ==> IsReadable(recs[i].stamps)
    requires MoveAll(db, source, target, recs).Success?
    ensures AllReadable(MoveAll(db, source, target, recs).value)
  {
    if recs != [] {
      hide AllReadable, MoveOne, IsReadable;
      var front, rec := recs[..|recs| - 1], recs[|recs| - 1];
      MoveAllKeepsReadable(db, source, target, front);
      MoveOneKeepsReadable(MoveAll(db, source, target, front).value, source, target, rec);
    }
  }

  lemma MigrationKeepsReadable(db: Db, p: MigrateParams, now: string)
    requires AllReadable(db) && forall i :: 0 <= i < |p.records| ==> IsReadable(p.records[i].stamps)
    requires Migrated(db, p, now).Success?
    ensures AllReadable(Migrated(db, p, now).value.0)
  {
    if p.migrationId !in db.migrations {
      hide MoveAll, IsReadable;
      MoveAllKeepsReadable(db, p.source, p.target, p.records);
    }
  }

  lemma RestoreKeepsReadable(db: Db, fam: FamilyId, caller: UserId, now: TimeText, sid: SnapshotId, after: Db)
    requires AllReadable(db) && IsRestored(db, fam, caller, now, sid, after)
    ensures AllReadable(after)
  {
    hide IsWritten, IsReadable, Plan, Entries;
    var plan := Plan(db, fam, caller, now, Entries(db, sid));
    PlanIsReadable(db, fam, caller, now, sid);
    WrittenFrame(db, fam, plan, after);
    forall r | r in after.records ensures IsReadable(after.records[r].stamps) {
      WrittenRow(db, fam, plan, after, r);
    }
  }

  lemma PlanIsReadable(db: Db, fam: FamilyId, caller: UserId, now: TimeText, sid: SnapshotId)
    requires AllReadable(db)
    ensures var plan := Plan(db, fam, caller, now, Entries(db, sid));
            forall r :: r in plan ==> IsReadable(plan[r].stamps)
  {
    hide IsReadable;
  }

  lemma CreateKeepsReadable(db: Db, fam: FamilyId, date: string, now: int)
    requires AllReadable(db)
    ensures AllReadable(Created(db, fam, date, now))
  {
    hide IsReadable;
  }

  lemma StepKeepsReadable(db: Db, e: Event, after: Db)
    requires AllReadable(db) && Step(db, e, after) && BringsReadable(e)
    ensures AllReadable(after)
  {
    hide IsRestored, CanRestore, CanCreate, Migrated, HasSnapshot, Created, Run, IsReadable, IsReferenced, Entries;
    match e
    case PushBatch(fam, user, batch) =>
      if fam in db.usage && batch != [] && Run(db, fam, user, batch).Going? { RunKeepsReadable(db, fam, user, batch); }
    case TakeSnapshot(fam, date, now) => CreateKeepsReadable(db, fam, date, now);
    case Restore(fam, sid, caller, at) =>
      if CanRestore(db, fam, caller, Entries(db, sid)) { RestoreKeepsReadable(db, fam, caller, at, sid, after); }
    case Migrate(params, at) =>
      if Migrated(db, params, at).Success? { MigrationKeepsReadable(db, params, at); }
    case _ =>
  }

  lemma {:induction false} EveryStateIsReadable(es: seq<Event>, dbs: seq<Db>, i: nat)
    requires IsRun(es, dbs) && AllReadable(dbs[0]) && i < |dbs|
    requires forall k :: 0 <= k < i ==> BringsReadable(es[k])
    ensures AllReadable(dbs[i])
  {
    hide AllReadable, BringsReadable, Step;
    if i > 0 {
      EveryStateIsReadable(es, dbs, i - 1);
      assert Step(dbs[i - 1], es[i - 1], dbs[i]) && BringsReadable(es[i - 1]);
      StepKeepsReadable(dbs[i - 1], es[i - 1], dbs[i]);
    }
  }

  lemma ReadableNeverAborts(db: Db, fam: FamilyId, user: UserId, batch: seq<PushRecord>, i: nat)
    requires AllReadable(db) && fam in db.usage && i < |batch| && Parseable(batch[i].stamps)
    ensures !AbortsAt(db, fam, user, batch, i)
  {
    if Run(db, fam, user, batch[..i]).Going? {
      RunKeepsReadable(db, fam, user, batch[..i]);
    }
    hide Run;
  }

  /** Along every run whose migrations carry readable timestamps, a push by a known
      user in a known family, whose own timestamps the handler has let pass, is never
      rolled back. */
  lemma PushNeverRollsBack(es: seq<Event>, dbs: seq<Db>, i: nat, fam: FamilyId, user: UserId, batch: seq<PushRecord>)
    requires IsRun(es, dbs) && dbs[0] == EMPTY && i < |dbs|
    requires forall k :: 0 <= k < i ==> BringsReadable(es[k])
    requires fam in dbs[i].usage && user in dbs[i].users
    requires forall k :: 0 <= k < |batch| ==> Parseable(batch[k].stamps)
    ensures Run(dbs[i], fam, user, batch).Going?
  {
    EmptyIsValid();
    assert AllReadable(EMPTY);
    hide Valid, AllReadable, IsRun, BringsReadable, Run, AbortsAt;
    EveryStateIsValid(es, dbs, i, i);
    EveryStateIsReadable(es, dbs, i);
    PushAbortsIff(dbs[i], fam, user, batch);
    forall k: nat | k < |batch| ensures !AbortsAt(dbs[i], fam, user, batch, k) {
      ReadableNeverAborts(dbs[i], fam, user, batch, k);
    }
  }

  // ---- the stored map is the pushed one, not the merge ----

  /** Every field the row has is pushed too, unchanged or with a later time. */
  predicate Covers(current: StampMap, pushed: StampMap) {
    forall k :: k in current ==>
      k in pushed && (pushed[k] == current[k]
                      || (pushed[k].instant.Some? && current[k].instant.Some?
                          && pushed[k].instant.value > current[k].instant.value))
  }

  /** After an accepted update the row holds the pushed map; that is the merge with the
      old one exactly if no field is dropped and none goes back or is respelled. */
  lemma StoredIsMergeIff(db: Db, p: UpsertParams)
    requires Structured(db) && Decide(db, p).Accepted? && p.recordId in db.records
    ensures var current := Readable(db.records[p.recordId].stamps);
            && Mergeable(current, p.stamps)
            && After(db, p).records[p.recordId].stamps == Json(p.stamps)
            && (p.stamps == Merged(current, p.stamps) <==> Covers(current, p.stamps))
  {
    var current := Readable(db.records[p.recordId].stamps);
    var merged := Merged(current, p.stamps);
    if Covers(current, p.stamps) {
      assert merged.Keys == p.stamps.Keys;
    } else {
      var k :| k in current && !(k in p.stamps && (p.stamps[k] == current[k]
                 || (p.stamps[k].instant.Some? && current[k].instant.Some?
                     && p.stamps[k].instant.value > current[k].instant.value)));
      assert k in merged && merged[k] == current[k];
    }
  }

  /** The push is accepted, takes one field's time back and drops another field. */
  ghost predicate TurnsBack(db: Db, p: UpsertParams, field: string, lost: string) {
    && Valid(db) && Decide(db, p).Accepted? && p.recordId in db.records
    && var current := Readable(db.records[p.recordId].stamps);
    && field in current && field in p.stamps && current[field].instant.Some? && p.stamps[field].instant.Some?
    && p.stamps[field].instant.value < current[field].instant.value
    && lost in current && lost !in p.stamps
  }

  /** One user and one empty family. */
  const START: Db := EMPTY.(users := {"u"}, usage := map["f" := 0], nextSeq := map["f" := 1])

  lemma StartIsValid()
    ensures Valid(START)
  {
    EmptyIsValid();
    hide Valid;
    OutsideKeeps(EMPTY, START);
  }

  /** A new record is accepted at version 1, with the map it was pushed with. */
  lemma NewRecordIsTaken(db: Db, fam: FamilyId, user: UserId, p: PushRecord)
    requires Valid(db) && fam in db.usage && user in db.users && !OverQuota(db.usage[fam], |p.ciphertext|)
    requires p.recordId !in db.records && p.parentVersion == 0 && Parseable(p.stamps)
    ensures var one := PushOne(db, false, fam, user, p);
            && one.Done? && Valid(one.db) && one.db.users == db.users && fam in one.db.usage
            && p.recordId in one.db.records
            && var row := one.db.records[p.recordId];
            row.family == fam && row.version == 1 && row.stamps == Json(p.stamps)
  {
    StructureOf(db);
    hide Valid, Structured;
    UpsertNeverFailsInside(db, Params(fam, user, p));
    PushOneKeeps(db, false, fam, user, p);
  }

  /** Such a push exists: the version is all that is compared. */
  lemma AcceptedPushCanTurnBack()
    ensures exists db, p, field, lost :: TurnsBack(db, p, field, lost)
  {
    hide Valid, Structured, PushOne;
    var early, late := Stamp("3", Some(3)), Stamp("5", Some(5));
    var first := PushRecord("r", "t", [], map["amount" := late, "note" := late], "", 0);
    var second := UpsertParams("r", "f", "t", "u", [], map["amount" := early], "", 1);
    StartIsValid();
    NewRecordIsTaken(START, "f", "u", first);
    var db := PushOne(START, false, "f", "u", first).db;
    StructureOf(db);
    UpsertNeverFailsInside(db, second);
    assert TurnsBack(db, second, "amount", "note");
  }
}
