/** The nightly jobs over whole runs (backend/internal/snapshot/prune.go): what goes, what
    stays, and what the usage counters say afterwards. */
module Cleanup {
  import opened Wrappers
  import opened Tables
  import opened Invariants
  import opened Snapshots
  import opened Server
  import opened SnapshotRuns

  // ---- orphaned blobs ----

  /** A row or a snapshot entry names the blob. */
  ghost predicate IsNamed(db: Db, b: BlobId) {
    || (exists r :: r in db.records && db.records[r].blob == b)
    || (exists s, r :: s in db.snapshots && r in db.snapshots[s].entries && db.snapshots[s].entries[r].blob == b)
  }

  lemma NamedIff(db: Db, b: BlobId)
    ensures IsReferenced(db, b) <==> IsNamed(db, b)
  {
    if s, r :| s in db.snapshots && r in db.snapshots[s].entries && db.snapshots[s].entries[r].blob == b {
      assert InEntries(db.snapshots[s].entries, b);
    }
  }

  /** Pruning keeps the named blobs, as they are, and no other; nothing else changes. */
  lemma PruneKeepsTheNamed(db: Db, after: Db)
    requires Step(db, PruneOrphans, after)
    ensures forall b :: b in after.blobs <==> b in db.blobs && IsNamed(db, b)
    ensures forall b :: b in after.blobs ==> after.blobs[b] == db.blobs[b] && IsNamed(after, b)
    ensures after == db.(blobs := after.blobs)
  {
    hide IsReferenced, IsNamed;
    forall b ensures IsReferenced(db, b) == IsNamed(db, b) { NamedIff(db, b); }
    forall b ensures IsNamed(after, b) == IsNamed(db, b) { NamesStay(db, after, b); }
  }

  lemma NamesStay(db: Db, after: Db, b: BlobId)
    requires after.records == db.records && after.snapshots == db.snapshots
    ensures IsNamed(after, b) == IsNamed(db, b)
  {
  }

  /** The bytes of the blobs that are named. */
  ghost function NamedBytes(db: Db, fam: FamilyId, upTo: nat): nat {
    if upTo == 0 then 0
    else
      var b := upTo - 1;
      NamedBytes(db, fam, b)
      + if b in db.blobs && db.blobs[b].family == fam && IsNamed(db, b) then |db.blobs[b].ciphertext| else 0
  }

  lemma {:induction false} StoredAreNamed(db: Db, after: Db, fam: FamilyId, upTo: nat)
    requires forall b :: b in after.blobs <==> b in db.blobs && IsNamed(db, b)
    requires forall b :: b in after.blobs ==> after.blobs[b] == db.blobs[b]
    ensures StoredBytes(after.blobs, fam, upTo) == NamedBytes(db, fam, upTo)
  {
    hide IsNamed;
    if upTo > 0 { StoredAreNamed(db, after, fam, upTo - 1); }
  }

  /** After a prune and a reconcile each family is charged exactly the bytes of its blobs
      that some row or snapshot entry names. */
  lemma PruneThenReconcile(es: seq<Event>, dbs: seq<Db>, i: nat, fam: FamilyId)
    requires IsRun(es, dbs) && i + 1 < |es| && es[i] == PruneOrphans && es[i + 1] == Reconcile
    requires fam in dbs[i].usage
    ensures fam in dbs[i + 2].usage
    ensures dbs[i + 2].usage[fam] == NamedBytes(dbs[i], fam, dbs[i].nextBlob)
  {
    assert Step(dbs[i], es[i], dbs[i + 1]) && Step(dbs[i + 1], es[i + 1], dbs[i + 2]);
    PruneKeepsTheNamed(dbs[i], dbs[i + 1]);
    hide IsNamed, Step, StoredBytes;
    StoredAreNamed(dbs[i], dbs[i + 1], fam, dbs[i].nextBlob);
    ReconcileCounts(dbs[i + 1], dbs[i + 2], fam);
  }

  lemma ReconcileCounts(db: Db, after: Db, fam: FamilyId)
    requires Step(db, Reconcile, after) && fam in db.usage
    ensures fam in after.usage && after.usage[fam] == StoredBytes(db.blobs, fam, db.nextBlob)
  {
  }

  // ---- expired snapshots ----

  /** A new snapshot is the family's of that date, and good for 30 days; each entry has
      every column of its row. */
  lemma SnapshotIsTaken(db: Db, fam: FamilyId, date: string, now: int, after: Db)
    requires Valid(db) && fam in db.usage && !HasSnapshot(db, fam, date)
    requires Step(db, TakeSnapshot(fam, date, now), after)
    ensures db.nextSnapshot !in db.snapshots && db.nextSnapshot in after.snapshots
    ensures var taken := after.snapshots[db.nextSnapshot];
            && after == db.(snapshots := db.snapshots[db.nextSnapshot := taken], nextSnapshot := db.nextSnapshot + 1)
            && taken.family == fam && taken.date == date && taken.expiresAt == now + 2_592_000_000
            && forall r :: r in taken.entries <==> IsLive(db, r, fam)
    ensures forall r :: r in after.snapshots[db.nextSnapshot].entries ==>
              var e, row := after.snapshots[db.nextSnapshot].entries[r], db.records[r];
              && e.blob == row.blob && e.recordType == row.recordType && e.version == row.version
              && e.stamps == row.stamps && e.addedBy == Some(row.addedBy)
              && e.editedBy == Some(row.editedBy)
  {
    SnapshotCanBeTaken(db, fam);
    hide CanCreate, HasSnapshot, DatesOk, SeqsDistinct, BlobsOk, UsageOk, EntriesOk;
    forall r | r in db.records ensures db.records[r].addedBy != "" && db.records[r].editedBy != "" {
      assert RowOk(db, db.records[r]);
    }
  }

  lemma ExpiredGo(db: Db, now: int, after: Db)
    requires Step(db, PruneExpired(now), after)
    ensures after == db.(snapshots := after.snapshots)
    ensures forall s :: s in after.snapshots <==> s in db.snapshots && db.snapshots[s].expiresAt >= now
    ensures forall s :: s in after.snapshots ==> after.snapshots[s] == db.snapshots[s]
  {
  }

  /** The job, run at this time, finds the snapshot older than 30 days. */
  ghost predicate IsTooOld(e: Event, taken: int) {
    e.PruneExpired? && e.now > taken + 2_592_000_000
  }

  /** A snapshot is there until the first nightly job more than 30 days later, and never
      again. */
  lemma SnapshotLivesIff(es: seq<Event>, dbs: seq<Db>, i: nat, j: nat)
    requires IsRun(es, dbs) && Valid(dbs[0]) && i < j < |dbs|
    requires es[i].TakeSnapshot? && es[i].fam in dbs[i].usage && !HasSnapshot(dbs[i], es[i].fam, es[i].date)
    ensures dbs[i].nextSnapshot in dbs[j].snapshots <==> forall k :: i < k < j ==> !IsTooOld(es[k], es[i].now)
  {
    var sid, fam, date, taken := dbs[i].nextSnapshot, es[i].fam, es[i].date, es[i].now;
    EveryStateIsValid(es, dbs, 0, i);
    assert Step(dbs[i], es[i], dbs[i + 1]);
    SnapshotIsTaken(dbs[i], fam, date, taken, dbs[i + 1]);
    hide Valid, Step, HasSnapshot;
    if forall k :: i < k < j ==> !IsTooOld(es[k], taken) {
      forall k | i + 1 <= k < j ensures !Expires(es[k], dbs[i + 1].snapshots[sid].expiresAt) {
        assert !IsTooOld(es[k], taken);
      }
      RunKeepsSnapshot(es, dbs, i + 1, j, sid);
    } else {
      var k :| i < k < j && IsTooOld(es[k], taken);
      EveryStateIsValid(es, dbs, i + 1, k);
      EveryStateIsValid(es, dbs, k + 1, j);
      EveryStateIsValid(es, dbs, i + 1, k + 1);
      IsPrunedAt(es, dbs, i, k, sid);
      StaysGone(dbs[i + 1], dbs[k + 1], dbs[j], sid);
    }
  }

  lemma IsPrunedAt(es: seq<Event>, dbs: seq<Db>, i: nat, k: nat, sid: SnapshotId)
    requires IsRun(es, dbs) && i < k < |es|
    requires sid in dbs[i + 1].snapshots && sid < dbs[i + 1].nextSnapshot && Follows(dbs[i + 1], dbs[k])
    requires es[k].PruneExpired? && es[k].now > dbs[i + 1].snapshots[sid].expiresAt
    ensures sid !in dbs[k + 1].snapshots
  {
    assert Step(dbs[k], es[k], dbs[k + 1]);
    ExpiredGo(dbs[k], es[k].now, dbs[k + 1]);
    assert sid in dbs[k].snapshots ==> dbs[k].snapshots[sid] == dbs[i + 1].snapshots[sid];
  }

  lemma StaysGone(taken: Db, pruned: Db, later: Db, sid: SnapshotId)
    requires Follows(taken, pruned) && Follows(pruned, later)
    requires sid < taken.nextSnapshot && sid !in pruned.snapshots
    ensures sid !in later.snapshots
  {
  }
}
