/** Paged pulls (backend/internal/sync/pull.go) and the client that applies them
    (src/services/sync/engine.ts): a map from record id to row, and a cursor. */
module Pull {
  import opened Wrappers
  import opened Sequences
  import opened Lww
  import opened Tables
  import opened Records
  import opened Invariants
  import opened Cursor

  const DEFAULT_PULL_LIMIT: int := 500
  const MAX_PULL_LIMIT: int := 500

  datatype PullRow = PullRow(
    recordId: RecordId,
    recordType: string,
    ciphertext: bytes,
    version: int,
    seqNo: int,
    stamps: StampMap,
    deletedAt: string,
    addedBy: UserId,
    editedBy: UserId)

  datatype Page = Page(records: seq<PullRow>, nextCursor: string, hasMore: bool)

  datatype LimitParam = Absent | Malformed | Number(n: int)

  datatype PullError = InvalidCursor | InvalidLimit

  /** The query joins a row with its blob. */
  predicate Visible(db: Db, r: RecordId, fam: FamilyId) {
    r in db.records && db.records[r].family == fam && db.records[r].blob in db.blobs
  }

  function RowView(db: Db, r: RecordId): PullRow
    requires r in db.records && db.records[r].blob in db.blobs
  {
    var row := db.records[r];
    PullRow(r, row.recordType, db.blobs[row.blob].ciphertext, row.version, row.seqNo,
            Readable(row.stamps), Text(row.deletedAt), row.addedBy, row.editedBy)
  }

  /** The family's records as a client is meant to see them. */
  function FamilyView(db: Db, fam: FamilyId): map<RecordId, PullRow> {
    map r | r in db.records && Visible(db, r, fam) :: RowView(db, r)
  }

  // ---- the ordered, limited query ----

  ghost predicate IsSortedView(db: Db, fam: FamilyId, after: int, rows: seq<PullRow>) {
    && (forall i :: 0 <= i < |rows| ==>
          && Visible(db, rows[i].recordId, fam)
          && rows[i] == RowView(db, rows[i].recordId)
          && rows[i].seqNo > after)
    && (forall i, j :: 0 <= i < j < |rows| ==> rows[i].seqNo < rows[j].seqNo)
  }

  /** No row with a sequence number in (after, upTo] is missing. */
  ghost predicate Covers(db: Db, fam: FamilyId, after: int, upTo: int, rows: seq<PullRow>) {
    forall r :: Visible(db, r, fam) && after < db.records[r].seqNo <= upTo ==> r in RowIds(rows)
  }

  function RowId(row: PullRow): RecordId {
    row.recordId
  }

  function RowIds(rows: seq<PullRow>): set<RecordId> {
    Image(rows, RowId)
  }

  function LastSeq(after: int, rows: seq<PullRow>): int {
    if rows == [] then after else rows[|rows| - 1].seqNo
  }

  /** The first rows of `ORDER BY family_seq` above `after`. */
  ghost predicate IsFetch(db: Db, fam: FamilyId, after: int, rows: seq<PullRow>) {
    IsSortedView(db, fam, after, rows) && Covers(db, fam, after, LastSeq(after, rows), rows)
  }

  ghost predicate NoneAbove(db: Db, fam: FamilyId, upTo: int) {
    forall r :: Visible(db, r, fam) ==> db.records[r].seqNo <= upTo
  }

  /** The visible row with the least sequence number above `after`. */
  method NextRow(d: Database, fam: FamilyId, after: int) returns (next: Option<RecordId>)
    ensures next.None? ==> NoneAbove(d.State(), fam, after)
    ensures next.Some? ==>
              && Visible(d.State(), next.value, fam) && d.records[next.value].seqNo > after
              && forall r :: Visible(d.State(), r, fam) && d.records[r].seqNo > after ==>
                   d.records[next.value].seqNo <= d.records[r].seqNo
  {
    next := None;
    var todo := d.records.Keys;
    while todo != {}
      invariant todo <= d.records.Keys
      invariant next.None? ==>
                  forall r :: r in d.records.Keys - todo && Visible(d.State(), r, fam) ==> d.records[r].seqNo <= after
      invariant next.Some? ==>
                  && Visible(d.State(), next.value, fam) && d.records[next.value].seqNo > after
                  && forall r :: r in d.records.Keys - todo && Visible(d.State(), r, fam)
                                 && d.records[r].seqNo > after ==>
                       d.records[next.value].seqNo <= d.records[r].seqNo
      decreases todo
    {
      var r :| r in todo;
      todo := todo - {r};
      if Visible(d.State(), r, fam) && d.records[r].seqNo > after
         && (next.None? || d.records[r].seqNo < d.records[next.value].seqNo) {
        next := Some(r);
      }
    }
  }

  lemma FetchSnoc(db: Db, fam: FamilyId, after: int, rows: seq<PullRow>, r: RecordId)
    requires SeqsDistinct(db) && IsFetch(db, fam, after, rows)
    requires Visible(db, r, fam) && db.records[r].seqNo > LastSeq(after, rows)
    requires forall s :: Visible(db, s, fam) && db.records[s].seqNo > LastSeq(after, rows) ==>
               db.records[r].seqNo <= db.records[s].seqNo
    ensures IsFetch(db, fam, after, rows + [RowView(db, r)])
  {
    SortedSnoc(db, fam, after, rows, r);
    var more := rows + [RowView(db, r)];
    hide IsSortedView;
    ImageSnoc(rows, RowView(db, r), RowId);
    forall s | Visible(db, s, fam) && after < db.records[s].seqNo <= LastSeq(after, more)
      ensures s in RowIds(more)
    {
      if db.records[s].seqNo > LastSeq(after, rows) { SameSeqSameRow(db, fam, r, s); }
    }
  }

  lemma SameSeqSameRow(db: Db, fam: FamilyId, r: RecordId, s: RecordId)
    requires SeqsDistinct(db) && Visible(db, r, fam) && Visible(db, s, fam)
    requires db.records[r].seqNo == db.records[s].seqNo
    ensures r == s
  {
  }

  lemma SortedSnoc(db: Db, fam: FamilyId, after: int, rows: seq<PullRow>, r: RecordId)
    requires IsSortedView(db, fam, after, rows)
    requires Visible(db, r, fam) && db.records[r].seqNo > LastSeq(after, rows)
    ensures IsSortedView(db, fam, after, rows + [RowView(db, r)])
  {
  }

  /** `FetchSince`: rows of the family with a higher sequence number, in order. */
  method FetchSince(d: Database, fam: FamilyId, after: int, limit: nat) returns (rows: seq<PullRow>)
    ensures |rows| <= limit
    ensures SeqsDistinct(d.State()) ==> IsFetch(d.State(), fam, after, rows)
    ensures |rows| < limit ==> NoneAbove(d.State(), fam, LastSeq(after, rows))
  {
    hide IsFetch, SeqsDistinct;
    rows := [];
    NothingFetched(d.State(), fam, after);
    while |rows| < limit
      invariant |rows| <= limit
      invariant SeqsDistinct(d.State()) ==> IsFetch(d.State(), fam, after, rows)
    {
      var next := NextRow(d, fam, LastSeq(after, rows));
      if next.None? { return; }
      if SeqsDistinct(d.State()) { FetchSnoc(d.State(), fam, after, rows, next.value); }
      rows := rows + [RowView(d.State(), next.value)];
    }
  }

  lemma NothingFetched(db: Db, fam: FamilyId, after: int)
    ensures IsFetch(db, fam, after, [])
  {
  }

  // ---- one page ----

  /** A page of at most `limit` rows above `after`. */
  ghost predicate IsPage(db: Db, fam: FamilyId, after: int, limit: nat, page: Page) {
    && IsFetch(db, fam, after, page.records)
    && |page.records| <= limit
    && (page.hasMore ==> |page.records| == limit)
    && (page.hasMore <==> !NoneAbove(db, fam, LastSeq(after, page.records)))
    && page.nextCursor == EncodeCursor(LastSeq(after, page.records))
  }

  lemma FetchPrefix(db: Db, fam: FamilyId, after: int, rows: seq<PullRow>, n: nat)
    requires IsFetch(db, fam, after, rows) && n <= |rows|
    ensures IsFetch(db, fam, after, rows[..n])
  {
  }

  /** One row more than the limit was found, so there is one above the page. */
  lemma OneMoreIsAbove(db: Db, fam: FamilyId, after: int, rows: seq<PullRow>, n: nat)
    requires IsFetch(db, fam, after, rows) && n < |rows|
    ensures !NoneAbove(db, fam, LastSeq(after, rows[..n]))
  {
  }

  /** `GetPull` */
  method GetPull(d: Database, fam: FamilyId, since: string, limitParam: LimitParam)
    returns (r: Result<Page, PullError>)
    ensures r == Failure(InvalidCursor) <==> DecodeCursor(since).Failure?
    ensures r.Success? <==>
              DecodeCursor(since).Success?
              && (limitParam.Absent? || (limitParam.Number? && 1 <= limitParam.n <= 500))
    ensures r.Success? && SeqsDistinct(d.State()) ==>
              IsPage(d.State(), fam, DecodeCursor(since).value,
                     if limitParam.Absent? then 500 else limitParam.n, r.value)
  {
    hide DecodeCursor, EncodeCursor, IsFetch, SeqsDistinct, NoneAbove;
    var afterSeq := DecodeCursor(since);
    if afterSeq.Failure? { return Failure(InvalidCursor); }
    var limit := DEFAULT_PULL_LIMIT;
    if limitParam != Absent {
      if limitParam.Malformed? || limitParam.n < 1 { return Failure(InvalidLimit); }
      if limitParam.n > MAX_PULL_LIMIT { return Failure(InvalidLimit); }
      limit := limitParam.n;
    }
    var rows := FetchSince(d, fam, afterSeq.value, limit + 1);
    var hasMore := |rows| > limit;
    if SeqsDistinct(d.State()) {
      if hasMore {
        OneMoreIsAbove(d.State(), fam, afterSeq.value, rows, limit);
        FetchPrefix(d.State(), fam, afterSeq.value, rows, limit);
      }
    }
    if hasMore { rows := rows[..limit]; }
    var out: seq<PullRow>, lastSeq := [], 0;
    for i := 0 to |rows|
      invariant out == rows[..i]
      invariant lastSeq == if i == 0 then 0 else rows[i - 1].seqNo
    {
      out := out + [rows[i]];
      lastSeq := rows[i].seqNo;
    }
    assert out == rows;
    var nextSeq := afterSeq.value;
    if SeqsDistinct(d.State()) && rows != [] { LastIsAbove(d.State(), fam, afterSeq.value, rows); }
    if lastSeq > 0 { nextSeq := lastSeq; }
    return Success(Page(out, EncodeCursor(nextSeq), hasMore));
  }

  lemma LastIsAbove(db: Db, fam: FamilyId, after: int, rows: seq<PullRow>)
    requires IsFetch(db, fam, after, rows) && rows != []
    ensures rows[|rows| - 1].seqNo > after
  {
  }

  // ---- the client ----

  function ApplyRows(replica: map<RecordId, PullRow>, rows: seq<PullRow>): map<RecordId, PullRow> {
    if rows == [] then replica
    else ApplyRows(replica, rows[..|rows| - 1])[rows[|rows| - 1].recordId := rows[|rows| - 1]]
  }

  /** Every row up to the cursor is in the replica, exactly as the server has it. */
  ghost predicate Synced(db: Db, fam: FamilyId, replica: map<RecordId, PullRow>, cur: int) {
    && fam in db.nextSeq && 0 <= cur < db.nextSeq[fam]
    && forall r :: Visible(db, r, fam) && db.records[r].seqNo <= cur ==>
         r in replica && replica[r] == RowView(db, r)
  }

  /** What a device keeps: the rows it has applied, and its cursor. */
  datatype Client = Client(replica: map<RecordId, PullRow>, cursor: string)

  /** The client's cursor reads as `cur`, and it has every row up to there. */
  ghost predicate InSyncAt(db: Db, fam: FamilyId, c: Client, cur: int) {
    DecodeCursor(c.cursor) == Success(cur) && Synced(db, fam, c.replica, cur)
  }

  ghost predicate InSync(db: Db, fam: FamilyId, c: Client) {
    exists cur :: InSyncAt(db, fam, c, cur)
  }

  /** `family_seq` is a signed 64-bit column. */
  ghost predicate CountersFit(db: Db, fam: FamilyId) {
    fam in db.nextSeq && db.nextSeq[fam] <= TWO_TO_THE_63
  }

  const NEW_CLIENT := Client(map[], "")

  lemma {:induction false} AppliedLookup(replica: map<RecordId, PullRow>, db: Db, fam: FamilyId, after: int,
                                         rows: seq<PullRow>, r: RecordId)
    requires IsSortedView(db, fam, after, rows)
    ensures var applied := ApplyRows(replica, rows);
            && (r in RowIds(rows) ==> r in applied && Visible(db, r, fam) && applied[r] == RowView(db, r))
            && (r !in RowIds(rows) ==> (r in applied <==> r in replica) && (r in replica ==> applied[r] == replica[r]))
  {
    if rows != [] {
      var front, last := rows[..|rows| - 1], rows[|rows| - 1];
      AppliedLookup(replica, db, fam, after, front, r);
      ImageSnoc(front, last, RowId);
      assert rows == front + [last];
    }
  }

  /** Applying any prefix of a page, the cursor moving with it, keeps the client
      synced: a client that fails on a row stops there and loses nothing. */
  lemma ApplyPrefixKeepsSynced(db: Db, fam: FamilyId, replica: map<RecordId, PullRow>, cur: int,
                               limit: nat, page: Page, k: nat)
    requires Structured(db) && Synced(db, fam, replica, cur)
    requires IsPage(db, fam, cur, limit, page) && k <= |page.records|
    ensures Synced(db, fam, ApplyRows(replica, page.records[..k]), LastSeq(cur, page.records[..k]))
    ensures LastSeq(cur, page.records[..k]) >= cur
  {
    var rows := page.records[..k];
    FetchPrefix(db, fam, cur, page.records, k);
    if k > 0 {
      var last := rows[k - 1];
      assert Visible(db, last.recordId, fam) && RowOk(db, db.records[last.recordId]);
    }
    var upTo := LastSeq(cur, rows);
    forall r | Visible(db, r, fam) && db.records[r].seqNo <= upTo
      ensures r in ApplyRows(replica, rows) && ApplyRows(replica, rows)[r] == RowView(db, r)
    {
      AppliedLookup(replica, db, fam, cur, rows, r);
    }
  }

  /** When the server says there is no more, the replica holds the whole family. */
  lemma LastPageCompletes(db: Db, fam: FamilyId, replica: map<RecordId, PullRow>, cur: int, limit: nat, page: Page)
    requires Structured(db) && Synced(db, fam, replica, cur)
    requires IsPage(db, fam, cur, limit, page) && !page.hasMore
    ensures forall r :: r in FamilyView(db, fam) ==>
              r in ApplyRows(replica, page.records)
              && ApplyRows(replica, page.records)[r] == FamilyView(db, fam)[r]
  {
    ApplyPrefixKeepsSynced(db, fam, replica, cur, limit, page, |page.records|);
    assert page.records[..|page.records|] == page.records;
  }

  /** Ids in the replica that the family no longer has. */
  ghost predicate NoStrangers(db: Db, fam: FamilyId, replica: map<RecordId, PullRow>) {
    forall r :: r in replica ==> Visible(db, r, fam)
  }

  lemma ApplyPrefixAddsNoStrangers(db: Db, fam: FamilyId, replica: map<RecordId, PullRow>, cur: int,
                                   limit: nat, page: Page, k: nat)
    requires NoStrangers(db, fam, replica)
    requires IsPage(db, fam, cur, limit, page) && k <= |page.records|
    ensures NoStrangers(db, fam, ApplyRows(replica, page.records[..k]))
  {
    var rows := page.records[..k];
    forall r | r in ApplyRows(replica, rows) ensures Visible(db, r, fam) {
      AppliedLookup(replica, db, fam, cur, rows, r);
    }
  }

  /** Whatever the server does between two pages, the client stays synced. */
  lemma ServerKeepsSynced(db: Db, after: Db, fam: FamilyId, replica: map<RecordId, PullRow>, cur: int)
    requires Structured(db) && Structured(after) && Follows(db, after)
    requires Synced(db, fam, replica, cur)
    ensures Synced(after, fam, replica, cur)
  {
    forall r | Visible(after, r, fam) && after.records[r].seqNo <= cur
      ensures r in replica && replica[r] == RowView(after, r)
    {
      assert RowFollows(db, r, after.records[r]);
      assert r in db.records && after.records[r] == db.records[r];
      assert RowOk(db, db.records[r]);
    }
  }
}
