/** After a push the device may move its pull cursor forward without pulling
    (`flushBatchOnce`, src/services/sync/engine.ts): never past a row it lacks. */
module Flush {
  import opened Sequences
  import opened Tables
  import opened Invariants
  import opened Cursor
  import opened Push
  import opened Pull
  import opened Server
  import opened Replies

  function Consecutive(from: int, n: nat): (s: seq<int>)
    ensures |s| == n && forall i :: 0 <= i < n ==> s[i] == from + i
  {
    if n == 0 then [] else Consecutive(from, n - 1) + [from + n - 1]
  }

  function SeqsOf(accepted: seq<AcceptedEntry>): (s: seq<int>)
    ensures |s| == |accepted| && forall i :: 0 <= i < |s| ==> s[i] == accepted[i].seqNo
  {
    if accepted == [] then [] else SeqsOf(accepted[..|accepted| - 1]) + [accepted[|accepted| - 1].seqNo]
  }

  ghost predicate Ascending(s: seq<int>) {
    forall i, j :: 0 <= i < j < |s| ==> s[i] <= s[j]
  }

  function Insert(t: seq<int>, x: int): (r: seq<int>)
    requires Ascending(t)
    ensures Ascending(r) && |r| == |t| + 1
    ensures forall i :: 0 <= i < |r| ==> r[i] <= x || (t != [] && r[i] <= t[|t| - 1])
  {
    if t == [] || t[|t| - 1] <= x then t + [x] else Insert(t[..|t| - 1], x) + [t[|t| - 1]]
  }

  function Sorted(s: seq<int>): (t: seq<int>)
    ensures Ascending(t) && |t| == |s|
  {
    if s == [] then [] else Insert(Sorted(s[..|s| - 1]), s[|s| - 1])
  }

  lemma {:induction false} InsertPermutes(t: seq<int>, x: int)
    requires Ascending(t)
    ensures multiset(Insert(t, x)) == multiset(t) + multiset{x}
  {
    if t != [] && t[|t| - 1] > x {
      InsertPermutes(t[..|t| - 1], x);
      assert t == t[..|t| - 1] + [t[|t| - 1]];
    }
  }

  lemma {:induction false} SortedPermutes(s: seq<int>)
    ensures multiset(Sorted(s)) == multiset(s)
  {
    if s != [] {
      SortedPermutes(s[..|s| - 1]);
      InsertPermutes(Sorted(s[..|s| - 1]), s[|s| - 1]);
      assert s == s[..|s| - 1] + [s[|s| - 1]];
    }
  }

  lemma {:induction false} AlreadySorted(s: seq<int>)
    requires Ascending(s)
    ensures Sorted(s) == s
  {
    if s != [] {
      AlreadySorted(s[..|s| - 1]);
      assert s == s[..|s| - 1] + [s[|s| - 1]];
    }
  }

  /** In order, the numbers are the ones right after `cur`. */
  predicate Contiguous(seqs: seq<int>, cur: int) {
    Sorted(seqs) == Consecutive(cur + 1, |seqs|)
  }

  /** The cursor after a push: the last accepted number if they are contiguous. */
  method FastForward(cur: int, accepted: seq<AcceptedEntry>) returns (next: int)
    ensures next == if Contiguous(SeqsOf(accepted), cur) then cur + |accepted| else cur
  {
    if |accepted| == 0 { return cur; }
    var seqs := Sorted(SeqsOf(accepted));
    var i := 0;
    while i < |seqs|
      invariant 0 <= i <= |seqs| && forall j :: 0 <= j < i ==> seqs[j] == cur + 1 + j
    {
      if seqs[i] != cur + 1 + i {
        assert seqs[i] != Consecutive(cur + 1, |seqs|)[i];
        return cur;
      }
      i := i + 1;
    }
    assert seqs == Consecutive(cur + 1, |seqs|);
    return seqs[|seqs| - 1];
  }

  // ---- what a push does to the sequence ----

  function AcceptedId(entry: AcceptedEntry): RecordId {
    entry.recordId
  }

  function AcceptedSet(accepted: seq<AcceptedEntry>): set<RecordId> {
    Image(accepted, AcceptedId)
  }

  /** Accepted records take the next numbers, in order; every row that is not
      accepted is the old one. */
  ghost predicate TookNext(db: Db, fam: FamilyId, after: Db, accepted: seq<AcceptedEntry>) {
    && fam in db.nextSeq && fam in after.nextSeq
    && SeqsOf(accepted) == Consecutive(db.nextSeq[fam], |accepted|)
    && after.nextSeq[fam] == db.nextSeq[fam] + |accepted|
    && forall r :: r in after.records && r !in AcceptedSet(accepted) ==>
         r in db.records && after.records[r] == db.records[r]
  }

  lemma PushOneTakesNext(db: Db, exhausted: bool, fam: FamilyId, user: UserId, p: PushRecord)
    requires fam in db.usage && fam in db.nextSeq && PushOne(db, exhausted, fam, user, p).Done?
    ensures var one := PushOne(db, exhausted, fam, user, p);
            && (one.decision.Taken? ==>
                  && one.decision.entry.seqNo == db.nextSeq[fam]
                  && fam in one.db.nextSeq && one.db.nextSeq[fam] == db.nextSeq[fam] + 1
                  && forall r :: r in one.db.records && r != p.recordId ==>
                       r in db.records && one.db.records[r] == db.records[r])
  {
  }

  lemma TookNextSnoc(db: Db, fam: FamilyId, mid: Db, after: Db, accepted: seq<AcceptedEntry>, e: AcceptedEntry)
    requires TookNext(db, fam, mid, accepted)
    requires e.seqNo == mid.nextSeq[fam]
    requires fam in after.nextSeq && after.nextSeq[fam] == mid.nextSeq[fam] + 1
    requires forall r :: r in after.records && r != e.recordId ==>
               r in mid.records && after.records[r] == mid.records[r]
    ensures TookNext(db, fam, after, accepted + [e])
  {
  }

  lemma {:induction false} PushTakesNext(db: Db, fam: FamilyId, user: UserId, batch: seq<PushRecord>)
    requires fam in db.usage && fam in db.nextSeq && Run(db, fam, user, batch).Going?
    ensures var g := Run(db, fam, user, batch); TookNext(db, fam, g.db, AcceptedOf(g.decisions))
  {
    hide PushOne, AcceptedOf, ConflictsOf;
    NoAnswers();
    if batch != [] {
      hide TookNext;
      var front, p := batch[..|batch| - 1], batch[|batch| - 1];
      PushTakesNext(db, fam, user, front);
      var g := Run(db, fam, user, front);
      KnownCounter(db, fam, g.db, AcceptedOf(g.decisions));
      var one := PushOne(g.db, g.exhausted, fam, user, p);
      PushOneTakesNext(g.db, g.exhausted, fam, user, p);
      AnswersSnoc(g.decisions, one.decision);
      if one.decision.Taken? {
        TookNextSnoc(db, fam, g.db, one.db, AcceptedOf(g.decisions), one.decision.entry);
      }
    }
  }

  lemma KnownCounter(db: Db, fam: FamilyId, after: Db, accepted: seq<AcceptedEntry>)
    requires TookNext(db, fam, after, accepted)
    ensures fam in after.nextSeq
  {
  }

  // ---- the fast-forward ----

  /** The device knows the records it has just pushed. */
  function WithOwn(replica: map<RecordId, PullRow>, after: Db, fam: FamilyId, own: set<RecordId>)
    : map<RecordId, PullRow>
  {
    replica + map r | r in own && Visible(after, r, fam) :: RowView(after, r)
  }

  lemma ContiguousIff(seqs: seq<int>, base: int, cur: int)
    requires seqs != [] && seqs == Consecutive(base, |seqs|)
    ensures Contiguous(seqs, cur) <==> base == cur + 1
  {
    AlreadySorted(seqs);
    assert Consecutive(base, |seqs|)[0] == base && Consecutive(cur + 1, |seqs|)[0] == cur + 1;
  }

  /** The device moves its cursor exactly when it had seen everything before its push. */
  lemma FastForwardIff(db: Db, fam: FamilyId, user: UserId, batch: seq<PushRecord>, cur: int)
    requires fam in db.usage && fam in db.nextSeq && Run(db, fam, user, batch).Going?
    ensures var accepted := AcceptedOf(Run(db, fam, user, batch).decisions);
            accepted != [] ==> (Contiguous(SeqsOf(accepted), cur) <==> db.nextSeq[fam] == cur + 1)
  {
    hide AcceptedOf, Run;
    PushTakesNext(db, fam, user, batch);
    hide Contiguous, SeqsOf;
    var accepted := AcceptedOf(Run(db, fam, user, batch).decisions);
    if accepted != [] { ContiguousIff(SeqsOf(accepted), db.nextSeq[fam], cur); }
  }

  /** `decodeCursor` (src/services/sync/cursor.ts): an unreadable cursor counts as 0. */
  function ReadCursor(cursor: string): int {
    var r := DecodeCursor(cursor);
    if r.Success? then r.value else 0
  }

  /** The device after a push that went through. */
  function Landed(c: Client, g: Progress, fam: FamilyId, cur: int): Client
    requires g.Going?
  {
    var accepted := AcceptedOf(g.decisions);
    Client(WithOwn(c.replica, g.db, fam, AcceptedSet(accepted)),
           if accepted != [] && Contiguous(SeqsOf(accepted), cur) then EncodeCursor(cur + |accepted|) else c.cursor)
  }

  /** The device after the answer to its push. */
  function AfterFlush(c: Client, db: Db, fam: FamilyId, user: UserId, batch: seq<PushRecord>): Client {
    if fam !in db.usage || Run(db, fam, user, batch).Aborted? then c
    else Landed(c, Run(db, fam, user, batch), fam, ReadCursor(c.cursor))
  }

  /** And then it skips nothing: it is in sync at the new cursor. */
  lemma FastForwardIsSafe(db: Db, fam: FamilyId, user: UserId, batch: seq<PushRecord>, c: Client, cur: int)
    requires Valid(db) && fam in db.usage && Run(db, fam, user, batch).Going?
    requires InSyncAt(db, fam, c, cur) && CountersFit(Run(db, fam, user, batch).db, fam)
    requires var accepted := AcceptedOf(Run(db, fam, user, batch).decisions);
             accepted != [] && Contiguous(SeqsOf(accepted), cur)
    ensures var g := Run(db, fam, user, batch);
            InSyncAt(g.db, fam, Landed(c, g, fam, cur), cur + |AcceptedOf(g.decisions)|)
  {
    hide Run, AcceptedOf, Valid, Contiguous, DecodeCursor, EncodeCursor, Synced, WithOwn, CountersFit;
    SyncedAfterPush(db, fam, user, batch, c.replica, cur);
    CursorRoundTrip(cur + |AcceptedOf(Run(db, fam, user, batch).decisions)|);
  }

  lemma SyncedAfterPush(db: Db, fam: FamilyId, user: UserId, batch: seq<PushRecord>,
                        replica: map<RecordId, PullRow>, cur: int)
    requires Valid(db) && fam in db.usage && Run(db, fam, user, batch).Going?
    requires Synced(db, fam, replica, cur) && CountersFit(Run(db, fam, user, batch).db, fam)
    requires var accepted := AcceptedOf(Run(db, fam, user, batch).decisions);
             accepted != [] && Contiguous(SeqsOf(accepted), cur)
    ensures var after, accepted := Run(db, fam, user, batch).db, AcceptedOf(Run(db, fam, user, batch).decisions);
            && Synced(after, fam, WithOwn(replica, after, fam, AcceptedSet(accepted)), cur + |accepted|)
            && 0 <= cur + |accepted| < TWO_TO_THE_63
  {
    hide *;
    var after, accepted := Run(db, fam, user, batch).db, AcceptedOf(Run(db, fam, user, batch).decisions);
    StructureOf(db);
    FamilyKnown(db, fam);
    PushTakesNext(db, fam, user, batch);
    FastForwardIff(db, fam, user, batch, cur);
    RunKeeps(db, fam, user, batch);
    StructureOf(after);
    SyncedWithOwn(db, after, fam, replica, cur, accepted);
    NewCursorFits(db, fam, after, accepted, replica, cur);
  }

  lemma FamilyKnown(db: Db, fam: FamilyId)
    requires Structured(db)
    ensures fam in db.usage <==> fam in db.nextSeq
  {
  }

  lemma NewCursorFits(db: Db, fam: FamilyId, after: Db, accepted: seq<AcceptedEntry>, replica: map<RecordId, PullRow>,
                      cur: int)
    requires TookNext(db, fam, after, accepted) && db.nextSeq[fam] == cur + 1
    requires Synced(db, fam, replica, cur) && CountersFit(after, fam)
    ensures 0 <= cur + |accepted| < TWO_TO_THE_63
  {
  }

  lemma SyncedWithOwn(db: Db, after: Db, fam: FamilyId, replica: map<RecordId, PullRow>, cur: int,
                      accepted: seq<AcceptedEntry>)
    requires Structured(db) && Structured(after) && Follows(db, after)
    requires Synced(db, fam, replica, cur) && TookNext(db, fam, after, accepted) && db.nextSeq[fam] == cur + 1
    ensures Synced(after, fam, WithOwn(replica, after, fam, AcceptedSet(accepted)), cur + |accepted|)
  {
    ServerKeepsSynced(db, after, fam, replica, cur);
    hide AcceptedSet, SeqsDistinct, SnapshotsOk, BlobsOk, DatesOk;
    var own := WithOwn(replica, after, fam, AcceptedSet(accepted));
    forall r | Visible(after, r, fam) && after.records[r].seqNo <= cur + |accepted|
      ensures r in own && own[r] == RowView(after, r)
    {
      if r !in AcceptedSet(accepted) {
        assert after.records[r] == db.records[r] && RowOk(db, db.records[r]);
      }
    }
  }

  /** Whether or not it moves its cursor, the device stays in sync. */
  lemma FlushKeepsInSync(db: Db, fam: FamilyId, user: UserId, batch: seq<PushRecord>, c: Client)
    requires Valid(db) && InSync(db, fam, c) && CountersFit(StateAfter(db, fam, user, batch), fam)
    ensures InSync(StateAfter(db, fam, user, batch), fam, AfterFlush(c, db, fam, user, batch))
  {
    var cur :| InSyncAt(db, fam, c, cur);
    hide Valid, InSyncAt, CountersFit, Landed, Run;
    StructureOf(db);
    InSyncFamily(db, fam, c, cur);
    if batch == [] {
      NothingPushed(db, fam, user, c);
    } else if Run(db, fam, user, batch).Going? {
      hide AcceptedOf, ConflictsOf;
      LandedInSync(db, fam, user, batch, c, cur);
    }
  }

  lemma LandedInSync(db: Db, fam: FamilyId, user: UserId, batch: seq<PushRecord>, c: Client, cur: int)
    requires Valid(db) && fam in db.usage && Run(db, fam, user, batch).Going?
    requires InSyncAt(db, fam, c, cur) && CountersFit(Run(db, fam, user, batch).db, fam)
    ensures InSync(Run(db, fam, user, batch).db, fam, Landed(c, Run(db, fam, user, batch), fam, cur))
  {
    var g := Run(db, fam, user, batch);
    hide Valid, InSyncAt, CountersFit, Contiguous, Run, AcceptedOf, Landed;
    var accepted := AcceptedOf(g.decisions);
    if accepted != [] && Contiguous(SeqsOf(accepted), cur) {
      FastForwardIsSafe(db, fam, user, batch, c, cur);
    } else {
      OwnRowsAreSafe(db, fam, user, batch, c, cur);
    }
  }

  lemma InSyncFamily(db: Db, fam: FamilyId, c: Client, cur: int)
    requires Structured(db) && InSyncAt(db, fam, c, cur)
    ensures fam in db.usage && ReadCursor(c.cursor) == cur
  {
  }

  lemma NothingPushed(db: Db, fam: FamilyId, user: UserId, c: Client)
    requires fam in db.usage
    ensures StateAfter(db, fam, user, []) == db && AfterFlush(c, db, fam, user, []) == c
  {
  }

  lemma OwnRowsAreSafe(db: Db, fam: FamilyId, user: UserId, batch: seq<PushRecord>, c: Client, cur: int)
    requires Valid(db) && fam in db.usage && Run(db, fam, user, batch).Going? && InSyncAt(db, fam, c, cur)
    requires var accepted := AcceptedOf(Run(db, fam, user, batch).decisions);
             accepted == [] || !Contiguous(SeqsOf(accepted), cur)
    ensures var g := Run(db, fam, user, batch); InSyncAt(g.db, fam, Landed(c, g, fam, cur), cur)
  {
    hide Run, AcceptedOf, Valid, Structured, Follows, AcceptedSet, DecodeCursor, Synced, Contiguous, WithOwn;
    StructureOf(db);
    RunKeeps(db, fam, user, batch);
    var g := Run(db, fam, user, batch);
    StructureOf(g.db);
    ServerKeepsSynced(db, g.db, fam, c.replica, cur);
    OwnRowsAreCurrent(g.db, fam, c.replica, cur, AcceptedSet(AcceptedOf(g.decisions)));
  }

  lemma OwnRowsAreCurrent(after: Db, fam: FamilyId, replica: map<RecordId, PullRow>, cur: int, own: set<RecordId>)
    requires Synced(after, fam, replica, cur)
    ensures Synced(after, fam, WithOwn(replica, after, fam, own), cur)
  {
  }

  // ---- the device's own rows ----

  lemma {:induction false} AcceptedAreVisible(db: Db, fam: FamilyId, user: UserId, batch: seq<PushRecord>)
    requires Structured(db) && fam in db.usage && Run(db, fam, user, batch).Going?
    ensures var g := Run(db, fam, user, batch);
            && Structured(g.db)
            && forall r :: r in AcceptedSet(AcceptedOf(g.decisions)) ==> Visible(g.db, r, fam)
  {
    hide Structured, PushOne, AcceptedOf, Visible, IsStale, TooMuch;
    if batch == [] {
      NoAnswers();
      assert AcceptedSet([]) == {};
    } else {
      var front, p := batch[..|batch| - 1], batch[|batch| - 1];
      AcceptedAreVisible(db, fam, user, front);
      var g := Run(db, fam, user, front);
      var one := PushOne(g.db, g.exhausted, fam, user, p);
      PushOneIsAnswer(g.db, g.exhausted, fam, user, p);
      AnswersSnoc(g.decisions, one.decision);
      if one.decision.Taken? { ImageSnoc(AcceptedOf(g.decisions), one.decision.entry, AcceptedId); }
    }
  }

  /** After a push that went through the device holds every accepted record as the server
      stores it now, and its other rows as before. */
  lemma OwnRowsLand(db: Db, fam: FamilyId, user: UserId, batch: seq<PushRecord>, c: Client, r: RecordId)
    requires Structured(db) && fam in db.usage && Run(db, fam, user, batch).Going?
    ensures var g := Run(db, fam, user, batch);
            var own, replica := AcceptedSet(AcceptedOf(g.decisions)), AfterFlush(c, db, fam, user, batch).replica;
            && (r in own ==> Visible(g.db, r, fam) && r in replica && replica[r] == RowView(g.db, r))
            && (r !in own ==> (r in replica <==> r in c.replica) && (r in replica ==> replica[r] == c.replica[r]))
  {
    hide Structured, Run, AcceptedOf, AcceptedSet, Contiguous, EncodeCursor;
    AcceptedAreVisible(db, fam, user, batch);
  }
}
