/** The pulling client (src/services/sync/engine.ts) against the running server: it
    converges whatever the server does between its pages. */
module Convergence {
  import opened Wrappers
  import opened Sequences
  import opened Lww
  import opened Tables
  import opened Records
  import opened Invariants
  import opened Cursor
  import opened Push
  import opened Snapshots
  import opened Migrations
  import opened Pull
  import opened Server
  import opened SnapshotRuns
  import opened Flush

  /** The client after applying the first `k` rows of a page. Only a page applied
      to its end lets it adopt the server's own next cursor. */
  function AfterPage(c: Client, page: Page, k: nat): Client
    requires k <= |page.records|
  {
    Client(ApplyRows(c.replica, page.records[..k]),
           if k == |page.records| then page.nextCursor
           else if k == 0 then c.cursor
           else EncodeCursor(page.records[k - 1].seqNo))
  }

  lemma NewClientInSync(db: Db, fam: FamilyId)
    requires Structured(db) && fam in db.nextSeq
    ensures InSync(db, fam, NEW_CLIENT) && NoStrangers(db, fam, NEW_CLIENT.replica)
  {
    forall r | r in db.records ensures db.records[r].seqNo > 0 {
      assert RowOk(db, db.records[r]);
    }
    assert InSyncAt(db, fam, NEW_CLIENT, 0);
  }

  /** A page, or any prefix of one, keeps the client in sync and never moves it back. */
  lemma PageKeepsInSync(db: Db, fam: FamilyId, c: Client, cur: int, limit: nat, page: Page, k: nat)
    requires Structured(db) && CountersFit(db, fam) && InSyncAt(db, fam, c, cur)
    requires IsPage(db, fam, cur, limit, page) && k <= |page.records|
    ensures InSyncAt(db, fam, AfterPage(c, page, k), LastSeq(cur, page.records[..k]))
    ensures LastSeq(cur, page.records[..k]) >= cur
  {
    hide DecodeCursor, EncodeCursor, IsFetch, NoneAbove, Structured, ApplyRows;
    ApplyPrefixKeepsSynced(db, fam, c.replica, cur, limit, page, k);
    assert page.records[..|page.records|] == page.records;
    var upTo := LastSeq(cur, page.records[..k]);
    assert 0 <= upTo < TWO_TO_THE_63;
    CursorRoundTrip(upTo);
    if k == 0 { assert page.records[..0] == []; }
  }

  /** The server never puts a client out of sync. */
  lemma StepKeepsInSync(db: Db, e: Event, after: Db, fam: FamilyId, c: Client)
    requires Valid(db) && Step(db, e, after) && InSync(db, fam, c)
    ensures InSync(after, fam, c)
  {
    var cur :| InSyncAt(db, fam, c, cur);
    StepKeeps(db, e, after);
    StructureOf(db);
    StructureOf(after);
    hide Valid, Structured, Follows, Synced, Step;
    ServerKeepsSynced(db, after, fam, c.replica, cur);
    assert InSyncAt(after, fam, c, cur);
  }

  // ---- interleaved runs ----

  datatype World = World(db: Db, client: Client)

  datatype Move =
    | Serve(event: Event)
    | PullPage(fromStart: bool, limit: nat, page: Page, applied: nat)
    | FlushBatch(user: UserId, batch: seq<PushRecord>)

  /** The cursor a pull asks from. After a restore the device pulls from the start,
      with its rows and its stored cursor kept. */
  function Since(c: Client, fromStart: bool): string {
    if fromStart then "" else c.cursor
  }

  /** The server takes a step; or the client asks for a page and applies the first
      `applied` of its rows; or it pushes a batch of its own. */
  ghost predicate Moves(w: World, m: Move, fam: FamilyId, after: World) {
    match m
    case Serve(event) => Step(w.db, event, after.db) && after.client == w.client
    case PullPage(fromStart, limit, page, applied) =>
      && 1 <= limit <= MAX_PULL_LIMIT
      && DecodeCursor(Since(w.client, fromStart)).Success?
      && IsPage(w.db, fam, DecodeCursor(Since(w.client, fromStart)).value, limit, page)
      && applied <= |page.records|
      && after == World(w.db, AfterPage(w.client, page, applied))
    case FlushBatch(user, batch) =>
      after == World(StateAfter(w.db, fam, user, batch), AfterFlush(w.client, w.db, fam, user, batch))
  }

  ghost predicate IsHistory(ms: seq<Move>, ws: seq<World>, fam: FamilyId) {
    && |ws| == |ms| + 1
    && (forall i :: 0 <= i < |ms| ==> Moves(ws[i], ms[i], fam, ws[i + 1]))
    && (forall i :: 0 <= i < |ws| ==> CountersFit(ws[i].db, fam))
  }

  lemma MoveKeepsInSync(w: World, m: Move, fam: FamilyId, after: World)
    requires Valid(w.db) && CountersFit(w.db, fam) && InSync(w.db, fam, w.client)
    requires Moves(w, m, fam, after) && CountersFit(after.db, fam)
    ensures Valid(after.db) && InSync(after.db, fam, after.client)
  {
    hide Valid, Step, IsPage, Synced, DecodeCursor, StateAfter, AfterFlush;
    match m
    case Serve(event) =>
      StepKeeps(w.db, event, after.db);
      StepKeepsInSync(w.db, event, after.db, fam, w.client);
    case PullPage(fromStart, limit, page, applied) =>
      StructureOf(w.db);
      AnyPageKeepsInSync(w.db, fam, w.client, fromStart, limit, page, applied);
    case FlushBatch(user, batch) =>
      PushIsStep(w.db, fam, user, batch);
      StepKeeps(w.db, PushBatch(fam, user, batch), after.db);
      FlushKeepsInSync(w.db, fam, user, batch, w.client);
  }

  /** A device that starts over is in sync at the very beginning. */
  lemma StartIsInSync(db: Db, fam: FamilyId, c: Client)
    requires Structured(db) && InSync(db, fam, c)
    ensures InSyncAt(db, fam, Client(c.replica, ""), 0)
  {
    forall r | r in db.records ensures db.records[r].seqNo > 0 {
      assert RowOk(db, db.records[r]);
    }
  }

  /** What a page asked for with either cursor leaves. */
  lemma AnyPageKeepsInSync(db: Db, fam: FamilyId, c: Client, fromStart: bool, limit: nat, page: Page, k: nat)
    requires Structured(db) && CountersFit(db, fam) && InSync(db, fam, c)
    requires DecodeCursor(Since(c, fromStart)).Success?
    requires IsPage(db, fam, DecodeCursor(Since(c, fromStart)).value, limit, page) && k <= |page.records|
    ensures InSync(db, fam, AfterPage(c, page, k))
  {
    hide Structured, IsPage, Synced, DecodeCursor, CountersFit;
    var asked := Client(c.replica, Since(c, fromStart));
    var cur := if fromStart then 0 else DecodeCursor(c.cursor).value;
    StartIsInSync(db, fam, c);
    assert InSyncAt(db, fam, asked, cur);
    PageKeepsInSync(db, fam, asked, cur, limit, page, k);
    assert page.records[..0] == [];
    if k == 0 < |page.records| { assert AfterPage(c, page, k) == c; }
    else { assert InSyncAt(db, fam, AfterPage(c, page, k), LastSeq(cur, page.records[..k])); }
  }

  lemma PushIsStep(db: Db, fam: FamilyId, user: UserId, batch: seq<PushRecord>)
    ensures Step(db, PushBatch(fam, user, batch), StateAfter(db, fam, user, batch))
  {
  }

  /** Through any interleaving of pushes, snapshots, restores, migrations, prunes and
      reconciles with a client's own pushes and its pages of any size, each applied
      wholly or in part:
      in every state the client has every row of the family up to its cursor,
      exactly as the server has it. */
  lemma {:induction false} ClientStaysInSync(ms: seq<Move>, ws: seq<World>, fam: FamilyId, i: nat)
    requires IsHistory(ms, ws, fam) && Valid(ws[0].db) && ws[0].client == NEW_CLIENT && i < |ws|
    ensures Valid(ws[i].db) && InSync(ws[i].db, fam, ws[i].client)
  {
    hide Valid, Moves, InSync, CountersFit;
    if i == 0 {
      StructureOf(ws[0].db);
      assert CountersFit(ws[0].db, fam);
      NewClientStarts(ws[0].db, fam);
    } else {
      ClientStaysInSync(ms, ws, fam, i - 1);
      assert Moves(ws[i - 1], ms[i - 1], fam, ws[i]) && CountersFit(ws[i - 1].db, fam) && CountersFit(ws[i].db, fam);
      MoveKeepsInSync(ws[i - 1], ms[i - 1], fam, ws[i]);
    }
  }

  lemma NewClientStarts(db: Db, fam: FamilyId)
    requires Structured(db) && CountersFit(db, fam)
    ensures InSync(db, fam, NEW_CLIENT)
  {
    NewClientInSync(db, fam);
  }

  /** Once a page without `hasMore` is applied to its end, the client has the whole
      family table of that moment; and has nothing else exactly if none of the ids it
      ever received has left the family. */
  lemma PullConverges(ms: seq<Move>, ws: seq<World>, fam: FamilyId, i: nat)
    requires IsHistory(ms, ws, fam) && Valid(ws[0].db) && ws[0].client == NEW_CLIENT && i < |ms|
    requires ms[i].PullPage? && !ms[i].page.hasMore && ms[i].applied == |ms[i].page.records|
    ensures var view, replica := FamilyView(ws[i].db, fam), ws[i + 1].client.replica;
            && (forall r :: r in view ==> r in replica && replica[r] == view[r])
            && (replica == view <==> NoStrangers(ws[i].db, fam, ws[i].client.replica))
  {
    hide Valid, Structured, Step, InSync, CountersFit, FamilyView, NoStrangers;
    ClientStaysInSync(ms, ws, fam, i);
    assert Moves(ws[i], ms[i], fam, ws[i + 1]);
    StructureOf(ws[i].db);
    LastPageConverges(ws[i].db, fam, ws[i].client, ms[i].fromStart, ms[i].limit, ms[i].page);
  }

  lemma LastPageConverges(db: Db, fam: FamilyId, c: Client, fromStart: bool, limit: nat, page: Page)
    requires Structured(db) && InSync(db, fam, c) && DecodeCursor(Since(c, fromStart)).Success?
    requires IsPage(db, fam, DecodeCursor(Since(c, fromStart)).value, limit, page) && !page.hasMore
    ensures var view, replica := FamilyView(db, fam), AfterPage(c, page, |page.records|).replica;
            && (forall r :: r in view ==> r in replica && replica[r] == view[r])
            && (replica == view <==> NoStrangers(db, fam, c.replica))
  {
    hide Structured, IsPage, Synced, FamilyView, NoStrangers;
    var cur := DecodeCursor(Since(c, fromStart)).value;
    StartIsInSync(db, fam, c);
    assert page.records[..|page.records|] == page.records;
    LastPageCompletes(db, fam, c.replica, cur, limit, page);
    OnlyStrangersDiffer(db, fam, c.replica, cur, limit, page);
  }

  lemma OnlyStrangersDiffer(db: Db, fam: FamilyId, replica: map<RecordId, PullRow>, cur: int, limit: nat, page: Page)
    requires IsPage(db, fam, cur, limit, page)
    requires forall r :: r in FamilyView(db, fam) ==>
               r in ApplyRows(replica, page.records)
               && ApplyRows(replica, page.records)[r] == FamilyView(db, fam)[r]
    ensures ApplyRows(replica, page.records) == FamilyView(db, fam) <==> NoStrangers(db, fam, replica)
  {
    hide ApplyRows, RowIds, FamilyView, Visible, IsSortedView, IsPage;
    var applied, view := ApplyRows(replica, page.records), FamilyView(db, fam);
    PageIds(db, fam, cur, limit, page);
    VisibleIsInView(db, fam);
    forall r ensures r in applied <==> r in replica || r in RowIds(page.records) {
      AppliedLookup(replica, db, fam, cur, page.records, r);
    }
    if NoStrangers(db, fam, replica) { assert applied.Keys == view.Keys; }
  }

  lemma VisibleIsInView(db: Db, fam: FamilyId)
    ensures forall r :: r in FamilyView(db, fam) <==> Visible(db, r, fam)
  {
  }

  lemma PageIds(db: Db, fam: FamilyId, cur: int, limit: nat, page: Page)
    requires IsPage(db, fam, cur, limit, page)
    ensures forall r :: r in RowIds(page.records) ==> Visible(db, r, fam)
    ensures IsSortedView(db, fam, cur, page.records)
  {
  }

  // ---- strangers come only from migrations out of the family ----

  lemma StepKeepsStrangersOut(db: Db, e: Event, after: Db, fam: FamilyId, replica: map<RecordId, PullRow>)
    requires Valid(db) && Step(db, e, after) && !Leaves(e, fam) && NoStrangers(db, fam, replica)
    ensures NoStrangers(after, fam, replica)
  {
    StepStaysHome(db, e, after, fam);
    StepKeeps(db, e, after);
    hide Step;
    forall r | r in replica ensures Visible(after, r, fam) {
      assert Visible(db, r, fam) && RowOk(after, after.records[r]);
    }
  }

  lemma {:induction false} NoStrangersWithoutMigration(ms: seq<Move>, ws: seq<World>, fam: FamilyId, i: nat)
    requires IsHistory(ms, ws, fam) && Valid(ws[0].db) && ws[0].client == NEW_CLIENT && i < |ws|
    requires forall k :: 0 <= k < i && ms[k].Serve? ==> !Leaves(ms[k].event, fam)
    ensures NoStrangers(ws[i].db, fam, ws[i].client.replica)
  {
    hide Valid, Moves, Leaves, InSync, CountersFit, NoStrangers;
    if i > 0 {
      NoStrangersWithoutMigration(ms, ws, fam, i - 1);
      ClientStaysInSync(ms, ws, fam, i - 1);
      assert Moves(ws[i - 1], ms[i - 1], fam, ws[i]);
      MoveKeepsStrangersOut(ws[i - 1], ms[i - 1], fam, ws[i]);
    } else {
      assert NoStrangers(ws[0].db, fam, map[]) by { NobodyIsNoStranger(ws[0].db, fam); }
    }
  }

  lemma NobodyIsNoStranger(db: Db, fam: FamilyId)
    ensures NoStrangers(db, fam, map[])
  {
  }

  lemma MoveKeepsStrangersOut(w: World, m: Move, fam: FamilyId, after: World)
    requires Valid(w.db) && Moves(w, m, fam, after) && NoStrangers(w.db, fam, w.client.replica)
    requires m.Serve? ==> !Leaves(m.event, fam)
    ensures NoStrangers(after.db, fam, after.client.replica)
  {
    hide Valid, Step, Leaves, IsPage, DecodeCursor, NoStrangers, AfterFlush, StateAfter;
    match m
    case Serve(event) => StepKeepsStrangersOut(w.db, event, after.db, fam, w.client.replica);
    case PullPage(fromStart, limit, page, applied) =>
      ApplyPrefixAddsNoStrangers(w.db, fam, w.client.replica, DecodeCursor(Since(w.client, fromStart)).value,
                                 limit, page, applied);
    case FlushBatch(user, batch) =>
      PushIsStep(w.db, fam, user, batch);
      PushDoesNotLeave(fam, user, batch);
      StepKeepsStrangersOut(w.db, PushBatch(fam, user, batch), after.db, fam, w.client.replica);
      FlushAddsNoStrangers(w, fam, user, batch);
  }

  lemma PushDoesNotLeave(fam: FamilyId, user: UserId, batch: seq<PushRecord>)
    ensures !Leaves(PushBatch(fam, user, batch), fam)
  {
  }

  lemma FlushAddsNoStrangers(w: World, fam: FamilyId, user: UserId, batch: seq<PushRecord>)
    requires NoStrangers(StateAfter(w.db, fam, user, batch), fam, w.client.replica)
    ensures NoStrangers(StateAfter(w.db, fam, user, batch), fam, AfterFlush(w.client, w.db, fam, user, batch).replica)
  {
  }

  /** Record `r` is not the family's. */
  ghost predicate Away(db: Db, fam: FamilyId, r: RecordId) {
    r in db.records ==> db.records[r].family != fam
  }

  lemma MoveKeepsAwayRow(w: World, m: Move, fam: FamilyId, after: World, r: RecordId)
    requires Moves(w, m, fam, after) && Away(w.db, fam, r) && Away(after.db, fam, r)
    requires r in w.client.replica
    ensures r in after.client.replica && after.client.replica[r] == w.client.replica[r]
  {
    hide Step, DecodeCursor, EncodeCursor, Contiguous;
    match m
    case Serve(event) =>
    case PullPage(fromStart, limit, page, applied) =>
      var cur, rows := DecodeCursor(Since(w.client, fromStart)).value, page.records[..applied];
      FetchPrefix(w.db, fam, cur, page.records, applied);
      AppliedLookup(w.client.replica, w.db, fam, cur, rows, r);
    case FlushBatch(user, batch) =>
      hide Run, AcceptedOf, AcceptedSet;
      if batch == [] && fam in w.db.usage { NothingPushed(w.db, fam, user, w.client); }
  }

  lemma {:induction false} AwayRowStays(ms: seq<Move>, ws: seq<World>, fam: FamilyId, i: nat, j: nat, r: RecordId)
    requires IsHistory(ms, ws, fam) && i <= j < |ws| && r in ws[i].client.replica
    requires forall l :: i <= l <= j ==> Away(ws[l].db, fam, r)
    ensures r in ws[j].client.replica && ws[j].client.replica[r] == ws[i].client.replica[r]
  {
    hide Moves, Away, CountersFit;
    if i < j {
      AwayRowStays(ms, ws, fam, i, j - 1, r);
      assert Moves(ws[j - 1], ms[j - 1], fam, ws[j]) && Away(ws[j - 1].db, fam, r) && Away(ws[j].db, fam, r);
      MoveKeepsAwayRow(ws[j - 1], ms[j - 1], fam, ws[j], r);
    }
  }

  /** In the history, move `i` is the first commit of a migration of record `r` out of
      the family, and the device has `r`. */
  ghost predicate MigratesAway(ms: seq<Move>, ws: seq<World>, fam: FamilyId, i: nat, r: RecordId) {
    && IsHistory(ms, ws, fam) && Valid(ws[0].db) && ws[0].client == NEW_CLIENT && i < |ms|
    && ms[i].Serve? && ms[i].event.Migrate? && ms[i].event.params.source == fam
    && ms[i].event.params.migrationId !in ws[i].db.migrations
    && Migrated(ws[i].db, ms[i].event.params, ms[i].event.at).Success?
    && r in RecordIds(ms[i].event.params.records) && r in ws[i].client.replica
  }

  lemma MigratedIsAway(db: Db, p: MigrateParams, now: string, r: RecordId)
    requires Valid(db) && p.migrationId !in db.migrations && Migrated(db, p, now).Success?
    requires r in RecordIds(p.records)
    ensures Away(Migrated(db, p, now).value.0, p.source, r)
  {
    hide MoveAll;
    var after := Migrated(db, p, now).value.0;
    MigrationEffect(db, p, now);
    var i :| 0 <= i < |p.records| && p.records[i].recordId == r;
    assert Arrived(db, RecordsOnly(db, after), p.source, p.target, p.records[i], db.nextSeq[p.target] + i);
  }

  /** A record that migrated away stays on every device that had it: whatever the
      server and the device do, as long as it is not back in the family the device
      keeps the same old row. */
  lemma MigratedRecordStaysBehind(ms: seq<Move>, ws: seq<World>, fam: FamilyId, i: nat, j: nat, r: RecordId)
    requires MigratesAway(ms, ws, fam, i, r) && i < j < |ws|
    requires forall l :: i + 1 < l <= j ==> Away(ws[l].db, fam, r)
    ensures Away(ws[i + 1].db, fam, r)
    ensures r in ws[j].client.replica && ws[j].client.replica[r] == ws[i].client.replica[r]
  {
    ClientStaysInSync(ms, ws, fam, i);
    assert Moves(ws[i], ms[i], fam, ws[i + 1]);
    hide Valid, Migrated, Away, CountersFit, RecordIds, InSync;
    MigratedIsAway(ws[i].db, ms[i].event.params, ms[i].event.at, r);
    hide Moves;
    AwayRowStays(ms, ws, fam, i + 1, j, r);
  }

  // ---- a restore reaches every client ----

  /** The content of a replica that is not deleted. */
  function LiveIn(replica: map<RecordId, PullRow>): map<RecordId, (string, bytes, StampMap, UserId, UserId)> {
    map r | r in replica && replica[r].deletedAt == "" ::
      (replica[r].recordType, replica[r].ciphertext, replica[r].stamps, replica[r].addedBy, replica[r].editedBy)
  }

  function Published(content: map<RecordId, Shown>): map<RecordId, (string, bytes, StampMap, UserId, UserId)> {
    map r | r in content ::
      (content[r].recordType, content[r].ciphertext, Readable(content[r].stamps),
       content[r].addedBy, content[r].editedBy)
  }

  /** The wire spells "not deleted" as empty text, which no tombstone carries as its
      time: readers see as live exactly the rows that are. */
  lemma ViewShowsLiveContent(db: Db, fam: FamilyId)
    requires RowsOk(db)
    ensures LiveIn(FamilyView(db, fam)) == Published(LiveContent(db, fam))
  {
    var view, live := FamilyView(db, fam), LiveContent(db, fam);
    forall r ensures r in LiveIn(view) <==> r in Published(live) {
      if Visible(db, r, fam) { assert RowOk(db, db.records[r]); }
    }
  }

  function ServerEvents(ms: seq<Move>, fam: FamilyId): (es: seq<Event>)
    ensures |es| == |ms|
    ensures forall i :: 0 <= i < |ms| ==> es[i] == EventOf(ms[i], fam)
  {
    if ms == [] then [] else ServerEvents(ms[..|ms| - 1], fam) + [EventOf(ms[|ms| - 1], fam)]
  }

  function EventOf(m: Move, fam: FamilyId): Event {
    match m
    case Serve(event) => event
    case PullPage(_, _, _, _) => Elsewhere
    case FlushBatch(user, batch) => PushBatch(fam, user, batch)
  }

  function ServerStates(ws: seq<World>): (dbs: seq<Db>)
    ensures |dbs| == |ws| && forall i :: 0 <= i < |ws| ==> dbs[i] == ws[i].db
  {
    if ws == [] then [] else ServerStates(ws[..|ws| - 1]) + [ws[|ws| - 1].db]
  }

  /** Seen from the server alone, a history is a run in which pulls change nothing. */
  lemma HistoryIsRun(ms: seq<Move>, ws: seq<World>, fam: FamilyId)
    requires IsHistory(ms, ws, fam) && Valid(ws[0].db) && ws[0].client == NEW_CLIENT
    ensures IsRun(ServerEvents(ms, fam), ServerStates(ws))
  {
    hide Valid, Moves, InSync, Step, CountersFit;
    forall i | 0 <= i < |ms| ensures Step(ws[i].db, ServerEvents(ms, fam)[i], ws[i + 1].db) {
      ClientStaysInSync(ms, ws, fam, i);
      MoveIsStep(ws[i], ms[i], fam, ws[i + 1]);
    }
  }

  lemma MoveIsStep(w: World, m: Move, fam: FamilyId, after: World)
    requires Moves(w, m, fam, after) && Valid(w.db)
    ensures Step(w.db, EventOf(m, fam), after.db)
  {
  }

  /** In the history, move `i` takes a snapshot, move `j` restores it unexpired, and
      nothing but pulls follows up to move `k`, the client's last page. */
  ghost predicate RestoredThenPulled(ms: seq<Move>, ws: seq<World>, fam: FamilyId, i: nat, j: nat, k: nat,
                                     caller: UserId, now: TimeText)
  {
    && IsHistory(ms, ws, fam) && Valid(ws[0].db) && ws[0].client == NEW_CLIENT && i < j < k < |ms|
    && ms[i].Serve? && ms[i].event.TakeSnapshot? && ms[i].event.fam == fam && fam in ws[i].db.usage
    && !HasSnapshot(ws[i].db, fam, ms[i].event.date)
    && ms[j] == Serve(Restore(fam, ws[i].db.nextSnapshot, caller, now))
    && (forall m :: i < m < j && ms[m].Serve? ==> !Expires(ms[m].event, ms[i].event.now + SNAPSHOT_TTL))
    && (forall m :: 0 <= m < j && ms[m].Serve? ==> !Leaves(ms[m].event, fam))
    && (forall m :: j < m <= k ==> ms[m].PullPage?)
    && !ms[k].page.hasMore && ms[k].applied == |ms[k].page.records|
  }

  lemma {:induction false} PullsChangeNothing(ms: seq<Move>, ws: seq<World>, fam: FamilyId, j: nat, k: nat)
    requires IsHistory(ms, ws, fam) && j < k < |ws|
    requires forall m :: j < m < k ==> ms[m].PullPage?
    ensures ws[k].db == ws[j + 1].db
  {
    hide Step, IsPage, DecodeCursor, AfterPage, StateAfter, AfterFlush, CountersFit;
    if j + 1 < k {
      PullsChangeNothing(ms, ws, fam, j, k - 1);
      assert Moves(ws[k - 1], ms[k - 1], fam, ws[k]);
    }
  }

  lemma ServerIsBack(ms: seq<Move>, ws: seq<World>, fam: FamilyId, i: nat, j: nat, k: nat,
          caller: UserId, now: TimeText)
    requires RestoredThenPulled(ms, ws, fam, i, j, k, caller, now)
    ensures LiveContent(ws[j + 1].db, fam) == LiveContent(ws[i].db, fam)
  {
    hide Valid, Moves, CountersFit, Expires, Leaves, LiveContent, HasSnapshot;
    HistoryIsRun(ms, ws, fam);
    OthersAreHarmless(fam, ms[i].event.now + SNAPSHOT_TTL);
    UnexpiredSnapshotRoundTrip(ServerEvents(ms, fam), ServerStates(ws), i, j, fam, caller, now);
  }

  lemma ClientIsCurrent(ms: seq<Move>, ws: seq<World>, fam: FamilyId, i: nat, j: nat, k: nat,
          caller: UserId, now: TimeText)
    requires RestoredThenPulled(ms, ws, fam, i, j, k, caller, now)
    ensures ws[k + 1].client.replica == FamilyView(ws[j + 1].db, fam)
  {
    hide Valid, Moves, CountersFit, Expires, HasSnapshot, FamilyView;
    PullsChangeNothing(ms, ws, fam, j, k);
    NoStrangersWithoutMigration(ms, ws, fam, k);
    PullConverges(ms, ws, fam, k);
  }

  /** A device that pulls after the restore, from whatever cursor it had or from the
      start, ends with exactly the live records of the moment the snapshot was taken. */
  lemma RestoreReachesTheClient(ms: seq<Move>, ws: seq<World>, fam: FamilyId, i: nat, j: nat, k: nat,
                                caller: UserId, now: TimeText)
    requires RestoredThenPulled(ms, ws, fam, i, j, k, caller, now)
    ensures LiveIn(ws[k + 1].client.replica) == Published(LiveContent(ws[i].db, fam))
  {
    hide *;
    RestoredRowsOk(ms, ws, fam, i, j, k, caller, now);
    ServerIsBack(ms, ws, fam, i, j, k, caller, now);
    ClientIsCurrent(ms, ws, fam, i, j, k, caller, now);
    ViewShowsLiveContent(ws[j + 1].db, fam);
  }

  lemma RestoredRowsOk(ms: seq<Move>, ws: seq<World>, fam: FamilyId, i: nat, j: nat, k: nat,
          caller: UserId, now: TimeText)
    requires RestoredThenPulled(ms, ws, fam, i, j, k, caller, now)
    ensures i < j < k && k + 1 < |ws| && RowsOk(ws[j + 1].db)
  {
    hide Valid, Moves, CountersFit, Expires, HasSnapshot, InSync, RowsOk;
    ClientStaysInSync(ms, ws, fam, j + 1);
    StructureOf(ws[j + 1].db);
  }

  lemma OthersAreHarmless(fam: FamilyId, t: int)
    ensures forall m: Move :: !m.Serve? ==> !Leaves(EventOf(m, fam), fam) && !Expires(EventOf(m, fam), t)
  {
  }

  // ---- one device pulling with nobody writing: the loop of `pullSince` ----

  /** The rows the client has yet to see. */
  ghost function Above(db: Db, fam: FamilyId, cur: int): set<RecordId> {
    set r | r in db.records && Visible(db, r, fam) && db.records[r].seqNo > cur
  }

  lemma {:induction false} DistinctRows(db: Db, fam: FamilyId, after: int, rows: seq<PullRow>)
    requires IsSortedView(db, fam, after, rows)
    ensures |RowIds(rows)| == |rows|
  {
    if rows != [] {
      var front, last := rows[..|rows| - 1], rows[|rows| - 1];
      assert rows == front + [last];
      SortedFront(db, fam, after, front, last);
      LastIsNew(db, fam, after, front, last);
      hide IsSortedView, RowIds;
      DistinctRows(db, fam, after, front);
      ImageSnoc(front, last, RowId);
    }
  }

  lemma SortedFront(db: Db, fam: FamilyId, after: int, front: seq<PullRow>, last: PullRow)
    requires IsSortedView(db, fam, after, front + [last])
    ensures IsSortedView(db, fam, after, front)
  {
    assert forall i :: 0 <= i < |front| ==> (front + [last])[i] == front[i];
  }

  lemma LastIsNew(db: Db, fam: FamilyId, after: int, front: seq<PullRow>, last: PullRow)
    requires IsSortedView(db, fam, after, front + [last])
    ensures last.recordId !in RowIds(front)
  {
    var rows := front + [last];
    assert rows[|front|] == last;
    forall i | 0 <= i < |front| ensures front[i].recordId != last.recordId {
      assert rows[i] == front[i] && rows[i].seqNo < rows[|front|].seqNo;
    }
  }

  /** A page takes its rows, and only them, off what is left to see. */
  lemma PageShrinksAbove(db: Db, fam: FamilyId, cur: int, limit: nat, page: Page)
    requires IsPage(db, fam, cur, limit, page)
    ensures |Above(db, fam, cur)| == |Above(db, fam, LastSeq(cur, page.records))| + |page.records|
  {
    var rows, upTo := page.records, LastSeq(cur, page.records);
    DistinctRows(db, fam, cur, rows);
    PageOrAbove(db, fam, cur, rows);
    hide Above, RowIds, IsFetch, LastSeq;
    assert Above(db, fam, cur) == Above(db, fam, upTo) + RowIds(rows);
    assert Above(db, fam, upTo) !! RowIds(rows);
  }

  lemma PageOrAbove(db: Db, fam: FamilyId, cur: int, rows: seq<PullRow>)
    requires IsFetch(db, fam, cur, rows)
    ensures forall r :: r in Above(db, fam, cur) <==> r in Above(db, fam, LastSeq(cur, rows)) || r in RowIds(rows)
    ensures forall r :: r in RowIds(rows) ==> r !in Above(db, fam, LastSeq(cur, rows))
  {
  }

  /** Row `r` is the first above `cur`. */
  ghost predicate IsNextAbove(db: Db, fam: FamilyId, cur: int, r: RecordId) {
    r in Above(db, fam, cur) && forall s :: s in Above(db, fam, cur) ==> db.records[r].seqNo <= db.records[s].seqNo
  }

  /** The client is in sync, right before row `r`. */
  ghost predicate StoppedAt(db: Db, fam: FamilyId, c: Client, cur: int, r: RecordId) {
    InSyncAt(db, fam, c, cur) && IsNextAbove(db, fam, cur, r)
  }

  lemma NextAfterPrefix(db: Db, fam: FamilyId, cur: int, limit: nat, page: Page, k: nat)
    requires IsPage(db, fam, cur, limit, page) && k < |page.records|
    ensures IsNextAbove(db, fam, LastSeq(cur, page.records[..k]), page.records[k].recordId)
  {
    hide IsNextAbove, IsFetch, LastSeq;
    NextAfterRows(db, fam, cur, page.records, k);
  }

  lemma NextAfterRows(db: Db, fam: FamilyId, cur: int, rows: seq<PullRow>, k: nat)
    requires IsFetch(db, fam, cur, rows) && k < |rows|
    ensures IsNextAbove(db, fam, LastSeq(cur, rows[..k]), rows[k].recordId)
  {
    hide IsFetch, Above, RowIds;
    var at := LastSeq(cur, rows[..k]);
    assert rows[..k + 1] == rows[..k] + [rows[k]];
    RowAbovePrefix(db, fam, cur, rows, k);
    PrefixOrAbove(db, fam, cur, rows, k);
    PrefixOrAbove(db, fam, cur, rows, k + 1);
    RowIdsSnoc(rows, k);
    forall s | s in Above(db, fam, at) ensures s in db.records && rows[k].seqNo <= db.records[s].seqNo {
      AboveMeansLater(db, fam, at, s);
      if s != rows[k].recordId { AboveMeansLater(db, fam, rows[k].seqNo, s); }
    }
  }

  lemma RowIdsSnoc(rows: seq<PullRow>, k: nat)
    requires k < |rows|
    ensures RowIds(rows[..k + 1]) == RowIds(rows[..k]) + {rows[k].recordId}
  {
    assert rows[..k + 1] == rows[..k] + [rows[k]];
    ImageSnoc(rows[..k], rows[k], RowId);
  }

  lemma PrefixOrAbove(db: Db, fam: FamilyId, cur: int, rows: seq<PullRow>, k: nat)
    requires IsFetch(db, fam, cur, rows) && k <= |rows|
    ensures var at := LastSeq(cur, rows[..k]);
            && (forall r :: r in Above(db, fam, cur) <==> r in Above(db, fam, at) || r in RowIds(rows[..k]))
            && (forall r :: r in RowIds(rows[..k]) ==> r !in Above(db, fam, at))
  {
    FetchPrefix(db, fam, cur, rows, k);
    hide IsFetch, Above, RowIds;
    PageOrAbove(db, fam, cur, rows[..k]);
  }

  lemma AboveMeansLater(db: Db, fam: FamilyId, at: int, r: RecordId)
    requires r in Above(db, fam, at)
    ensures r in db.records && db.records[r].seqNo > at
  {
  }

  lemma RowAbovePrefix(db: Db, fam: FamilyId, cur: int, rows: seq<PullRow>, k: nat)
    requires IsFetch(db, fam, cur, rows) && k < |rows|
    ensures rows[k].recordId in Above(db, fam, LastSeq(cur, rows[..k])) && cur <= LastSeq(cur, rows[..k])
    ensures db.records[rows[k].recordId].seqNo == rows[k].seqNo
  {
  }

  /** The index of the first row the device cannot decrypt or apply. */
  function FirstBroken(rows: seq<PullRow>, broken: set<RecordId>): (k: nat)
    ensures k <= |rows| && (k < |rows| ==> rows[k].recordId in broken)
    ensures forall i :: 0 <= i < k ==> rows[i].recordId !in broken
  {
    if rows == [] || rows[0].recordId in broken then 0 else 1 + FirstBroken(rows[1..], broken)
  }

  lemma FirstBrokenIs(rows: seq<PullRow>, broken: set<RecordId>, k: nat)
    requires k <= |rows| && (forall i :: 0 <= i < k ==> rows[i].recordId !in broken)
    requires k < |rows| ==> rows[k].recordId in broken
    ensures FirstBroken(rows, broken) == k
  {
  }

  class Replica {
    var rows: map<RecordId, PullRow>
    var cursor: string

    function Value(): Client
      reads this
    {
      Client(rows, cursor)
    }

    constructor ()
      ensures Value() == NEW_CLIENT
    {
      rows, cursor := map[], "";
    }

    /** The body of the loop, after the fetch: rows one by one, the cursor moving
        with each, up to the first that fails. */
    method ApplyPage(page: Page, broken: set<RecordId>) returns (hitFailure: bool)
      modifies this
      ensures var k := FirstBroken(page.records, broken);
              && hitFailure == (k < |page.records|)
              && Value() == AfterPage(old(Value()), page, k)
    {
      hide EncodeCursor;
      var i := 0;
      assert page.records[..0] == [];
      while i < |page.records|
        invariant 0 <= i <= |page.records|
        invariant forall j :: 0 <= j < i ==> page.records[j].recordId !in broken
        invariant rows == ApplyRows(old(rows), page.records[..i])
        invariant cursor == if i == 0 then old(cursor) else EncodeCursor(page.records[i - 1].seqNo)
      {
        var pulled := page.records[i];
        if pulled.recordId in broken {
          FirstBrokenIs(page.records, broken, i);
          return true;
        }
        assert page.records[..i + 1][..i] == page.records[..i];
        rows := rows[pulled.recordId := pulled];
        cursor := EncodeCursor(pulled.seqNo);
        i := i + 1;
      }
      FirstBrokenIs(page.records, broken, i);
      cursor := page.nextCursor;
      return false;
    }

    /** `flushBatchOnce`: push, and move the cursor if the answer allows it. */
    method FlushBatchOnce(d: Database, fam: FamilyId, user: UserId, batch: seq<PushRecord>) returns (r: PushResponse)
      modifies this, d
      ensures (d.State(), r) == Pushed(old(d.State()), fam, user, batch)
      ensures batch != [] ==> Value() == AfterFlush(old(Value()), old(d.State()), fam, user, batch)
    {
      hide Run, AcceptedOf, EncodeCursor, DecodeCursor, Contiguous;
      r := PostPush(d, fam, user, batch);
      if r.Reply? && |r.accepted| > 0 {
        rows := WithOwn(rows, d.State(), fam, AcceptedSet(r.accepted));
        var cur := ReadCursor(cursor);
        var next := FastForward(cur, r.accepted);
        if next != cur { cursor := EncodeCursor(next); }
      } else if batch != [] {
        assert AcceptedSet([]) == {};
        assert WithOwn(rows, d.State(), fam, {}) == rows;
      }
    }

    /** `pullSince` on a quiet server. Without a failing row it fetches every page:
        all but the last are full, the rows above the cursor are fetched once each,
        and the device ends with the whole family. With one, it stops right before
        it, still in sync. */
    method PullSince(d: Database, fam: FamilyId, broken: set<RecordId>, ghost start: int)
      returns (pages: nat, hitFailure: bool)
      requires Structured(d.State()) && CountersFit(d.State(), fam)
      requires InSyncAt(d.State(), fam, Value(), start)
      modifies this
      ensures InSync(d.State(), fam, Value())
      ensures 1 <= pages && (pages - 1) * DEFAULT_PULL_LIMIT <= |Above(d.State(), fam, start)|
      ensures !hitFailure ==>
                forall r :: r in FamilyView(d.State(), fam) ==> r in rows && rows[r] == FamilyView(d.State(), fam)[r]
      ensures (forall r :: r in Above(d.State(), fam, start) ==> r !in broken) ==> !hitFailure
      ensures hitFailure ==> exists at, r :: StoppedAt(d.State(), fam, Value(), at, r) && r in broken
    {
      hide Structured, IsPage, DecodeCursor, EncodeCursor, Synced, CountersFit;
      pages := 0;
      ghost var cur, db := start, d.State();
      StartBelow(db, fam, Value(), start);
      while true
        invariant d.State() == db && InSyncAt(db, fam, Value(), cur) && cur >= start
        invariant pages * DEFAULT_PULL_LIMIT + |Above(db, fam, cur)| == |Above(db, fam, start)|
        decreases |Above(db, fam, cur)|
      {
        StructuredSeqs(db);
        var response := GetPull(d, fam, cursor, Absent);
        assert response.Success?;
        var page := response.value;
        PageShrinksAbove(db, fam, cur, DEFAULT_PULL_LIMIT, page);
        BrokenAreAbove(db, fam, cur, start, DEFAULT_PULL_LIMIT, page);
        ghost var k := FirstBroken(page.records, broken);
        PageKeepsInSync(db, fam, Value(), cur, DEFAULT_PULL_LIMIT, page, k);
        if !page.hasMore { LastPageCompletes(db, fam, rows, cur, DEFAULT_PULL_LIMIT, page); }
        assert page.records[..|page.records|] == page.records;
        FullUnlessLast(db, fam, cur, DEFAULT_PULL_LIMIT, page);
        if k < |page.records| { NextAfterPrefix(db, fam, cur, DEFAULT_PULL_LIMIT, page, k); }
        hitFailure := ApplyPage(page, broken);
        cur := LastSeq(cur, page.records[..k]);
        if hitFailure {
          assert StoppedAt(db, fam, Value(), cur, page.records[k].recordId);
          return pages + 1, true;
        }
        if !page.hasMore { return pages + 1, false; }
        pages := pages + 1;
      }
    }
  }

  lemma StartBelow(db: Db, fam: FamilyId, c: Client, cur: int)
    requires InSyncAt(db, fam, c, cur)
    ensures cur >= 0
  {
  }

  lemma StructuredSeqs(db: Db)
    requires Structured(db)
    ensures SeqsDistinct(db)
  {
  }

  lemma FullUnlessLast(db: Db, fam: FamilyId, cur: int, limit: nat, page: Page)
    requires IsPage(db, fam, cur, limit, page)
    ensures page.hasMore ==> |page.records| == limit
  {
  }

  lemma BrokenAreAbove(db: Db, fam: FamilyId, cur: int, start: int, limit: nat, page: Page)
    requires IsPage(db, fam, cur, limit, page) && cur >= start
    ensures forall i :: 0 <= i < |page.records| ==> page.records[i].recordId in Above(db, fam, start)
  {
  }
}
