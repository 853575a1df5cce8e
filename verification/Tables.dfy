/** The server's tables (backend/internal/db/schema.sql) and the queries the sync
    core runs on them (backend/internal/db/queries.sql). `Db` is the content of the
    database file as a value; `Database` is the open connection that changes it. */
module Tables {
  import opened Wrappers
  import opened Lww

  type FamilyId = string
  type UserId = string
  type RecordId = string
  type BlobId = nat
  type SnapshotId = nat

  /** A formatted point in time (`httpx.FormatTime`): never empty text. */
  type TimeText = t: string | t != "" witness "0"

  /** The hard cap per family: 200 MiB. */
  const QUOTA_MAX_BYTES: int := 200 * 1024 * 1024

  /** A JSON column: a map, or text that is not one (migrated records are stored unchecked). */
  datatype MapText = Json(stamps: StampMap) | NotAMap(text: string)

  datatype Row = Row(
    family: FamilyId,
    recordType: string,
    blob: BlobId,
    version: int,
    addedBy: UserId,
    editedBy: UserId,
    stamps: MapText,
    deletedAt: Option<string>,
    seqNo: int)

  /** `byte_count` is always the length of the ciphertext. */
  datatype Blob = Blob(family: FamilyId, ciphertext: bytes)

  datatype Entry = Entry(
    blob: BlobId,
    recordType: string,
    version: int,
    stamps: MapText,
    addedBy: Option<UserId>,
    editedBy: Option<UserId>)

  datatype Snapshot = Snapshot(family: FamilyId, date: string, expiresAt: int, entries: map<RecordId, Entry>)

  datatype Migration = Migration(user: UserId, committedAt: string, recordCount: nat)

  /** Identifiers the server generates are modelled by counters: `uuid.NewV7` never repeats. */
  datatype Db = Db(
    users: set<UserId>,
    usage: map<FamilyId, int>,
    nextSeq: map<FamilyId, int>,
    records: map<RecordId, Row>,
    blobs: map<BlobId, Blob>,
    nextBlob: nat,
    snapshots: map<SnapshotId, Snapshot>,
    nextSnapshot: nat,
    members: set<(FamilyId, UserId)>,
    invites: set<(FamilyId, string)>,
    migrations: map<string, Migration>)

  // ---- what single queries do ----

  function FindRow(db: Db, id: RecordId, fam: FamilyId): Option<Row> {
    if id in db.records && db.records[id].family == fam then Some(db.records[id]) else None
  }

  function AddBlob(db: Db, fam: FamilyId, ciphertext: bytes): Db {
    db.(blobs := db.blobs[db.nextBlob := Blob(fam, ciphertext)], nextBlob := db.nextBlob + 1)
  }

  function TakeSeq(db: Db, fam: FamilyId): Db
    requires fam in db.nextSeq
  {
    db.(nextSeq := db.nextSeq[fam := db.nextSeq[fam] + 1])
  }

  function PutRow(db: Db, id: RecordId, row: Row): Db {
    db.(records := db.records[id := row])
  }

  /** The unique (family_id, family_seq) index admits `row` under `id`. */
  predicate SeqIsFree(db: Db, id: RecordId, fam: FamilyId, seqNo: int) {
    forall r :: r in db.records && r != id ==> !(db.records[r].family == fam && db.records[r].seqNo == seqNo)
  }

  /** Foreign keys and indexes that an inserted row must satisfy. */
  predicate CanInsert(db: Db, id: RecordId, row: Row) {
    && id !in db.records
    && CanStore(db, id, row)
    && row.addedBy in db.users
  }

  /** The same for the columns an update writes. */
  predicate CanStore(db: Db, id: RecordId, row: Row) {
    && row.family in db.usage
    && row.blob in db.blobs
    && row.editedBy in db.users
    && SeqIsFree(db, id, row.family, row.seqNo)
  }

  predicate IsReferenced(db: Db, b: BlobId) {
    || (exists r :: r in db.records && db.records[r].blob == b)
    || (exists s :: s in db.snapshots && InEntries(db.snapshots[s].entries, b))
  }

  predicate InEntries(entries: map<RecordId, Entry>, b: BlobId) {
    exists r :: r in entries && entries[r].blob == b
  }

  /** Sum of the blob sizes of a family. */
  function StoredBytes(blobs: map<BlobId, Blob>, fam: FamilyId, upTo: nat): (n: nat) {
    if upTo == 0 then 0
    else
      var b := upTo - 1;
      StoredBytes(blobs, fam, b)
      + if b in blobs && blobs[b].family == fam then |blobs[b].ciphertext| else 0
  }

  /** SQLite's NOCASE folds ASCII letters only. */
  function NoCase(s: string): string {
    if s == "" then ""
    else [if 'A' <= s[0] <= 'Z' then s[0] - 'A' + 'a' else s[0]] + NoCase(s[1..])
  }

  class Database {
    var users: set<UserId>
    var usage: map<FamilyId, int>
    var nextSeq: map<FamilyId, int>
    var records: map<RecordId, Row>
    var blobs: map<BlobId, Blob>
    var nextBlob: nat
    var snapshots: map<SnapshotId, Snapshot>
    var nextSnapshot: nat
    var members: set<(FamilyId, UserId)>
    var invites: set<(FamilyId, string)>
    var migrations: map<string, Migration>

    function State(): Db
      reads this
    {
      Db(users, usage, nextSeq, records, blobs, nextBlob, snapshots, nextSnapshot, members, invites, migrations)
    }

    constructor (db: Db)
      ensures State() == db
    {
      users, usage, nextSeq := db.users, db.usage, db.nextSeq;
      records, blobs, nextBlob := db.records, db.blobs, db.nextBlob;
      snapshots, nextSnapshot := db.snapshots, db.nextSnapshot;
      members, invites, migrations := db.members, db.invites, db.migrations;
    }

    /** `tx.Rollback`: the tables as they were when the transaction began. */
    method Rollback(begin: Db)
      modifies this
      ensures State() == begin
    {
      users, usage, nextSeq := begin.users, begin.usage, begin.nextSeq;
      records, blobs, nextBlob := begin.records, begin.blobs, begin.nextBlob;
      snapshots, nextSnapshot := begin.snapshots, begin.nextSnapshot;
      members, invites, migrations := begin.members, begin.invites, begin.migrations;
    }

    method InsertBlob(fam: FamilyId, ciphertext: bytes) returns (id: Option<BlobId>)
      modifies this
      ensures id == if fam in old(usage) then Some(old(nextBlob)) else None
      ensures State() == if id.Some? then AddBlob(old(State()), fam, ciphertext) else old(State())
    {
      if fam !in usage { return None; }
      id := Some(nextBlob);
      blobs, nextBlob := blobs[nextBlob := Blob(fam, ciphertext)], nextBlob + 1;
    }

    method AdvanceFamilySeq(fam: FamilyId) returns (seqNo: Option<int>)
      modifies this
      ensures fam in old(nextSeq) ==> seqNo == Some(old(nextSeq)[fam]) && State() == TakeSeq(old(State()), fam)
      ensures fam !in old(nextSeq) ==> seqNo == None && State() == old(State())
    {
      if fam !in nextSeq { return None; }
      seqNo := Some(nextSeq[fam]);
      nextSeq := nextSeq[fam := nextSeq[fam] + 1];
    }

    method InsertRecordMeta(id: RecordId, row: Row) returns (ok: bool)
      modifies this
      ensures ok == CanInsert(old(State()), id, row)
      ensures State() == if ok then PutRow(old(State()), id, row) else old(State())
    {
      ok := CanInsert(State(), id, row);
      if ok { records := records[id := row]; }
    }

    /** Writes the listed columns only: never record_type, added_by_user or family_id. */
    method UpdateRecordMeta(id: RecordId, fam: FamilyId, blob: BlobId, version: int, editedBy: UserId,
                            stamps: MapText, deletedAt: Option<string>, seqNo: int)
      returns (ok: bool)
      requires FindRow(State(), id, fam).Some?
      modifies this
      ensures var row := old(records)[id].(blob := blob, version := version, editedBy := editedBy,
                                           stamps := stamps, deletedAt := deletedAt, seqNo := seqNo);
              && ok == CanStore(old(State()), id, row)
              && State() == if ok then PutRow(old(State()), id, row) else old(State())
    {
      var row := records[id].(blob := blob, version := version, editedBy := editedBy,
                              stamps := stamps, deletedAt := deletedAt, seqNo := seqNo);
      ok := CanStore(State(), id, row);
      if ok { records := records[id := row]; }
    }

    /** The same, and the row moves to another family. */
    method UpdateRecordMetaFamily(id: RecordId, fam: FamilyId, newFam: FamilyId, blob: BlobId, version: int,
                                  editedBy: UserId, stamps: MapText, deletedAt: Option<string>, seqNo: int)
      returns (ok: bool)
      requires FindRow(State(), id, fam).Some?
      modifies this
      ensures var row := old(records)[id].(family := newFam, blob := blob, version := version,
                                           editedBy := editedBy, stamps := stamps,
                                           deletedAt := deletedAt, seqNo := seqNo);
              && ok == CanStore(old(State()), id, row)
              && State() == if ok then PutRow(old(State()), id, row) else old(State())
    {
      var row := records[id].(family := newFam, blob := blob, version := version, editedBy := editedBy,
                              stamps := stamps, deletedAt := deletedAt, seqNo := seqNo);
      ok := CanStore(State(), id, row);
      if ok { records := records[id := row]; }
    }
  }
}
