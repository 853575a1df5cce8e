/** What the answer to a push says, record by record, told from what a reader of the
    tables sees (backend/internal/sync/push.go). */
module Replies {
  import opened Tables
  import opened Records
  import opened Invariants
  import opened Push
  import opened Pull
  import opened Exchange
  import opened Server

  /** The conflict shows the row just as a pull would. */
  predicate Shows(c: Current, row: PullRow) {
    c == Current(row.ciphertext, row.version, row.stamps, row.addedBy, row.editedBy, row.deletedAt)
  }

  predicate ShowsNothing(c: Current) {
    c == Current([], 0, map[], "", "", "")
  }

  /** The bytes would take the family above 200 MiB. */
  predicate TooMuch(db: Db, fam: FamilyId, p: PushRecord) {
    fam in db.usage && db.usage[fam] + |p.ciphertext| > 209_715_200
  }

  /** The row is there at another version; or it is not, and the id is another
      family's, or the record names a parent. */
  predicate IsStale(db: Db, fam: FamilyId, p: PushRecord) {
    if Visible(db, p.recordId, fam) then db.records[p.recordId].version != p.parentVersion
    else p.recordId in db.records || p.parentVersion != 0
  }

  /** The record is there as pushed, under the family's next number, and its bytes are
      charged; every other record looks as it did. */
  ghost predicate IsWrittenAs(before: Db, fam: FamilyId, user: UserId, p: PushRecord, e: AcceptedEntry, after: Db) {
    && e.recordId == p.recordId && e.version == p.parentVersion + 1
    && fam in before.nextSeq && fam in before.usage && e.seqNo == before.nextSeq[fam]
    && Visible(after, p.recordId, fam)
    && var row := RowView(after, p.recordId);
    && row.ciphertext == p.ciphertext && row.stamps == p.stamps && row.deletedAt == p.deletedAt
    && row.editedBy == user && row.version == e.version && row.seqNo == e.seqNo
    && after.usage == before.usage[fam := before.usage[fam] + |p.ciphertext|]
    && after.nextSeq == before.nextSeq[fam := before.nextSeq[fam] + 1]
    && forall f, r :: r != p.recordId ==>
         && (Visible(after, r, f) <==> Visible(before, r, f))
         && (Visible(before, r, f) ==> RowView(after, r) == RowView(before, r))
  }

  /** The conflict answered to a record, given whether the quota was met by then. */
  ghost predicate IsConflict(before: Db, fam: FamilyId, p: PushRecord, full: bool, c: PushConflict) {
    && c.recordId == p.recordId
    && c.reason == (if full then QuotaConflict else VersionConflict)
    && if !full && Visible(before, p.recordId, fam) then Shows(c.current, RowView(before, p.recordId))
       else ShowsNothing(c.current)
  }

  /** The answer to one record, and what it leaves. */
  ghost predicate IsAnswer(before: Db, fam: FamilyId, user: UserId, p: PushRecord, full: bool, d: Decision, after: Db) {
    if full || IsStale(before, fam, p) then
      d.Refused? && IsConflict(before, fam, p, full, d.conflict) && after == before
    else
      d.Taken? && IsWrittenAs(before, fam, user, p, d.entry, after)
  }

  /** Record `i` or one before it was too much at its turn. */
  ghost predicate FullBy(dbs: seq<Db>, fam: FamilyId, batch: seq<PushRecord>, i: int) {
    exists j :: 0 <= j <= i && j < |dbs| && j < |batch| && TooMuch(dbs[j], fam, batch[j])
  }

  /** The tables before each turn and after the last, and the answer of each turn. */
  ghost predicate Explains(db: Db, fam: FamilyId, user: UserId, batch: seq<PushRecord>, dbs: seq<Db>,
                           ds: seq<Decision>, after: Db)
  {
    && |dbs| == |batch| + 1 && |ds| == |batch| && dbs[0] == db && dbs[|batch|] == after
    && forall i :: 0 <= i < |batch| ==>
         IsAnswer(dbs[i], fam, user, batch[i], FullBy(dbs, fam, batch, i), ds[i], dbs[i + 1])
  }

  // ---- one record ----

  lemma StaleIsRefused(db: Db, exhausted: bool, fam: FamilyId, user: UserId, p: PushRecord)
    requires Structured(db) && fam in db.usage && IsStale(db, fam, p)
    ensures var r, full := PushOne(db, exhausted, fam, user, p), exhausted || TooMuch(db, fam, p);
            && r.Done? && r.db == db && r.exhausted == full
            && r.decision.Refused? && IsConflict(db, fam, p, full, r.decision.conflict)
  {
    ConflictShowsTheRow(db, Params(fam, user, p));
    hide RowsOk, SeqsDistinct, BlobsOk, SnapshotsOk, DatesOk;
  }

  /** What is accepted goes on from the version named, at the next number. */
  lemma FreshIsAccepted(db: Db, fam: FamilyId, user: UserId, p: PushRecord)
    requires Structured(db) && fam in db.usage && !IsStale(db, fam, p) && !TooMuch(db, fam, p)
    requires PushOne(db, false, fam, user, p).Done?
    ensures var q, r := Params(fam, user, p), PushOne(db, false, fam, user, p);
            && fam in db.nextSeq && Decide(db, q) == Accepted(p.parentVersion + 1, db.nextSeq[fam])
            && r == Done(Charge(After(db, q), fam, |p.ciphertext|), false,
                         Taken(AcceptedEntry(p.recordId, p.parentVersion + 1, db.nextSeq[fam])))
  {
    hide After, SeqsDistinct, BlobsOk, SnapshotsOk, DatesOk;
  }

  lemma CountersAfter(db: Db, p: UpsertParams)
    requires Structured(db) && Decide(db, p).Accepted?
    ensures p.familyId in db.nextSeq && After(db, p).usage == db.usage
    ensures After(db, p).nextSeq == db.nextSeq[p.familyId := db.nextSeq[p.familyId] + 1]
  {
  }

  lemma ChargeIsUnseen(db: Db, fam: FamilyId, n: nat)
    requires Structured(db) && fam in db.usage
    ensures var after := Charge(db, fam, n);
            && Structured(after)
            && forall f, r :: (Visible(after, r, f) <==> Visible(db, r, f))
                              && (Visible(db, r, f) ==> RowView(after, r) == RowView(db, r))
  {
    UsageIsNotStructural(db, Charge(db, fam, n).usage);
    hide Structured;
  }

  lemma FreshIsTaken(db: Db, fam: FamilyId, user: UserId, p: PushRecord)
    requires Structured(db) && fam in db.usage && !IsStale(db, fam, p) && !TooMuch(db, fam, p)
    requires PushOne(db, false, fam, user, p).Done?
    ensures var r := PushOne(db, false, fam, user, p);
            && !r.exhausted && r.decision.Taken? && Structured(r.db)
            && IsWrittenAs(db, fam, user, p, r.decision.entry, r.db)
  {
    hide Structured, Decide, After, IsStale, PushOne, Visible, Follows, Stored;
    var q := Params(fam, user, p);
    FreshIsAccepted(db, fam, user, p);
    PushedIsWhatIsPulled(db, q);
    AcceptedUpsertKeeps(db, q);
    CountersAfter(db, q);
    ChargeIsUnseen(After(db, q), fam, |p.ciphertext|);
  }

  lemma PushOneIsAnswer(db: Db, exhausted: bool, fam: FamilyId, user: UserId, p: PushRecord)
    requires Structured(db) && fam in db.usage && PushOne(db, exhausted, fam, user, p).Done?
    ensures var r, full := PushOne(db, exhausted, fam, user, p), exhausted || TooMuch(db, fam, p);
            && r.exhausted == full && Structured(r.db)
            && IsAnswer(db, fam, user, p, full, r.decision, r.db)
  {
    hide Structured, Decide, After, IsStale, IsWrittenAs;
    if IsStale(db, fam, p) { StaleIsRefused(db, exhausted, fam, user, p); }
    else if !exhausted && !TooMuch(db, fam, p) { FreshIsTaken(db, fam, user, p); }
  }

  // ---- the batch ----

  lemma ExplainsSnoc(db: Db, fam: FamilyId, user: UserId, batch: seq<PushRecord>, dbs: seq<Db>, ds: seq<Decision>,
                     p: PushRecord, d: Decision, after: Db)
    requires |dbs| == |batch| + 1 && Explains(db, fam, user, batch, dbs, ds, dbs[|batch|])
    requires IsAnswer(dbs[|batch|], fam, user, p,
                      FullBy(dbs, fam, batch, |batch|) || TooMuch(dbs[|batch|], fam, p), d, after)
    ensures Explains(db, fam, user, batch + [p], dbs + [after], ds + [d], after)
    ensures FullBy(dbs + [after], fam, batch + [p], |batch| + 1) <==>
            FullBy(dbs, fam, batch, |batch|) || TooMuch(dbs[|batch|], fam, p)
  {
    hide IsAnswer, TooMuch, FullBy;
    var more, all, n := dbs + [after], batch + [p], |batch|;
    FullAfter(dbs, fam, batch, after, p);
    forall i | 0 <= i <= n
      ensures IsAnswer(more[i], fam, user, all[i], FullBy(more, fam, all, i), (ds + [d])[i], more[i + 1])
    {
      if i < n {
        FullAgrees(dbs, more, fam, batch, all, i);
        assert more[i] == dbs[i] && more[i + 1] == dbs[i + 1] && all[i] == batch[i] && (ds + [d])[i] == ds[i];
      }
    }
  }

  lemma FullAfter(dbs: seq<Db>, fam: FamilyId, batch: seq<PushRecord>, after: Db, p: PushRecord)
    requires |dbs| == |batch| + 1
    ensures var full := FullBy(dbs, fam, batch, |batch|) || TooMuch(dbs[|batch|], fam, p);
            && FullBy(dbs + [after], fam, batch + [p], |batch|) == full
            && FullBy(dbs + [after], fam, batch + [p], |batch| + 1) == full
  {
    hide TooMuch, FullBy;
    var more, all, n := dbs + [after], batch + [p], |batch|;
    FullAgrees(dbs, more, fam, batch, all, n - 1);
    FullOneMore(more, fam, all, n);
    FullOneMore(dbs, fam, batch, n);
    FullOneMore(more, fam, all, n + 1);
  }

  lemma FullAgrees(dbs: seq<Db>, more: seq<Db>, fam: FamilyId, batch: seq<PushRecord>, all: seq<PushRecord>, i: int)
    requires i < |batch| < |dbs| && |batch| <= |all| && |dbs| <= |more|
    requires forall j :: 0 <= j <= i ==> more[j] == dbs[j] && all[j] == batch[j]
    ensures FullBy(more, fam, all, i) == FullBy(dbs, fam, batch, i)
  {
    hide TooMuch;
  }

  lemma FullOneMore(dbs: seq<Db>, fam: FamilyId, batch: seq<PushRecord>, i: nat)
    ensures FullBy(dbs, fam, batch, i) <==>
            FullBy(dbs, fam, batch, i - 1) || (i < |dbs| && i < |batch| && TooMuch(dbs[i], fam, batch[i]))
  {
    hide TooMuch;
  }

  /** Every batch that is not rolled back has such an explanation. */
  lemma {:induction false} RunIsExplained(db: Db, fam: FamilyId, user: UserId, batch: seq<PushRecord>)
    returns (dbs: seq<Db>)
    requires Structured(db) && fam in db.usage && Run(db, fam, user, batch).Going?
    ensures var g := Run(db, fam, user, batch);
            && Structured(g.db) && Explains(db, fam, user, batch, dbs, g.decisions, g.db)
            && g.exhausted == FullBy(dbs, fam, batch, |batch|)
  {
    hide Structured, PushOne, IsAnswer, Explains, FullBy, TooMuch;
    if batch == [] {
      dbs := [db];
      NothingToExplain(db, fam, user);
    } else {
      var front, p := batch[..|batch| - 1], batch[|batch| - 1];
      dbs := RunIsExplained(db, fam, user, front);
      ExplainedLengths(db, fam, user, front, dbs, Run(db, fam, user, front).decisions, Run(db, fam, user, front).db);
      var g := Run(db, fam, user, front);
      var one := PushOne(g.db, g.exhausted, fam, user, p);
      PushOneIsAnswer(g.db, g.exhausted, fam, user, p);
      assert batch == front + [p];
      ExplainsSnoc(db, fam, user, front, dbs, g.decisions, p, one.decision, one.db);
      dbs := dbs + [one.db];
    }
  }

  lemma NothingToExplain(db: Db, fam: FamilyId, user: UserId)
    ensures Explains(db, fam, user, [], [db], [], db) && !FullBy([db], fam, [], 0)
  {
  }

  lemma ExplainedLengths(db: Db, fam: FamilyId, user: UserId, batch: seq<PushRecord>, dbs: seq<Db>,
                         ds: seq<Decision>, after: Db)
    requires Explains(db, fam, user, batch, dbs, ds, after)
    ensures |dbs| == |batch| + 1 && |ds| == |batch| && dbs[|batch|] == after
  {
  }

  // ---- the two lists of the reply ----

  ghost predicate IsRising(at: seq<nat>, n: nat) {
    (forall i :: 0 <= i < |at| ==> at[i] < n) && forall i, j :: 0 <= i < j < |at| ==> at[i] < at[j]
  }

  /** The accepted entries are those of the turns `at`, in the order of the batch. */
  ghost predicate PicksTaken(ds: seq<Decision>, accepted: seq<AcceptedEntry>, at: seq<nat>) {
    && |at| == |accepted| && IsRising(at, |ds|)
    && (forall i :: 0 <= i < |at| ==> ds[at[i]] == Taken(accepted[i]))
    && forall k :: 0 <= k < |ds| && ds[k].Taken? ==> k in at
  }

  ghost predicate PicksRefused(ds: seq<Decision>, conflicts: seq<PushConflict>, at: seq<nat>) {
    && |at| == |conflicts| && IsRising(at, |ds|)
    && (forall i :: 0 <= i < |at| ==> ds[at[i]] == Refused(conflicts[i]))
    && forall k :: 0 <= k < |ds| && ds[k].Refused? ==> k in at
  }

  lemma {:induction false} ListsPick(ds: seq<Decision>) returns (taken: seq<nat>, refused: seq<nat>)
    ensures PicksTaken(ds, AcceptedOf(ds), taken) && PicksRefused(ds, ConflictsOf(ds), refused)
  {
    taken, refused := [], [];
    if ds != [] {
      var front, d := ds[..|ds| - 1], ds[|ds| - 1];
      assert ds == front + [d];
      AnswersSnoc(front, d);
      taken, refused := ListsPick(front);
      hide AcceptedOf, ConflictsOf;
      PicksSnoc(front, d, AcceptedOf(front), ConflictsOf(front), taken, refused);
      if d.Taken? { taken := taken + [|front|]; } else { refused := refused + [|front|]; }
    }
  }

  lemma PicksSnoc(front: seq<Decision>, d: Decision, accepted: seq<AcceptedEntry>, conflicts: seq<PushConflict>,
                  taken: seq<nat>, refused: seq<nat>)
    requires PicksTaken(front, accepted, taken) && PicksRefused(front, conflicts, refused)
    ensures d.Taken? ==>
              && PicksTaken(front + [d], accepted + [d.entry], taken + [|front|])
              && PicksRefused(front + [d], conflicts, refused)
    ensures d.Refused? ==>
              && PicksTaken(front + [d], accepted, taken)
              && PicksRefused(front + [d], conflicts + [d.conflict], refused + [|front|])
  {
    var ds, n := front + [d], |front|;
    assert forall k :: 0 <= k < n ==> ds[k] == front[k];
    assert ds[n] == d;
    assert forall at: seq<nat> :: (at + [n])[|at|] == n && forall i :: 0 <= i < |at| ==> (at + [n])[i] == at[i];
  }

  /** The reply lists the answers of the turns in order; 413 is said instead exactly if
      nothing is taken and the quota was met. */
  ghost predicate IsReply(r: PushResponse, ds: seq<Decision>, full: bool) {
    if full && forall i :: 0 <= i < |ds| ==> ds[i].Refused? then r == QuotaExceeded
    else
      && r.Reply?
      && (exists at :: PicksTaken(ds, r.accepted, at))
      && (exists at :: PicksRefused(ds, r.conflicts, at))
  }

  /** A push that is not rolled back, told from what readers see at each turn: which
      records are taken and at which version and number, which are refused and what
      their conflicts show, and what the device is told. */
  lemma PushIsExplained(db: Db, fam: FamilyId, user: UserId, batch: seq<PushRecord>)
    requires Structured(db) && Pushed(db, fam, user, batch).1 != Internal
    requires Pushed(db, fam, user, batch).1 != PushResponse.BadTimestamp
    ensures exists dbs, ds ::
              && Explains(db, fam, user, batch, dbs, ds, Pushed(db, fam, user, batch).0)
              && IsReply(Pushed(db, fam, user, batch).1, ds, FullBy(dbs, fam, batch, |batch|))
  {
    hide Structured, Run, AcceptedOf, ConflictsOf, Explains, FullBy, PicksTaken, PicksRefused;
    if batch == [] {
      NothingToExplain(db, fam, user);
      EmptyReply();
      assert Explains(db, fam, user, batch, [db], [], db) && IsReply(Reply([], []), [], FullBy([db], fam, [], 0));
    } else {
      var g := Run(db, fam, user, batch);
      var dbs := RunIsExplained(db, fam, user, batch);
      var taken, refused := ListsPick(g.decisions);
      NoneTakenIff(g.decisions, AcceptedOf(g.decisions), taken);
      assert IsReply(Pushed(db, fam, user, batch).1, g.decisions, FullBy(dbs, fam, batch, |batch|));
    }
  }

  lemma EmptyReply()
    ensures PicksTaken([], [], []) && PicksRefused([], [], [])
  {
  }

  lemma NoneTakenIff(ds: seq<Decision>, accepted: seq<AcceptedEntry>, at: seq<nat>)
    requires PicksTaken(ds, accepted, at)
    ensures accepted == [] <==> forall i :: 0 <= i < |ds| ==> ds[i].Refused?
  {
    if accepted != [] { assert ds[at[0]].Taken?; }
    else { assert forall k :: 0 <= k < |ds| ==> !ds[k].Taken?; }
  }

  // ---- when the device is told to stop ----

  /** Record `i` is too much for the family as it is, and all before it are stale. */
  ghost predicate IsQuotaStop(db: Db, fam: FamilyId, batch: seq<PushRecord>, i: int) {
    0 <= i < |batch| && TooMuch(db, fam, batch[i]) && forall k :: 0 <= k < i ==> IsStale(db, fam, batch[k])
  }

  /** The record is stale, or it or one before it is too much. */
  ghost predicate IsBlocked(db: Db, fam: FamilyId, batch: seq<PushRecord>, k: int)
    requires 0 <= k < |batch|
  {
    IsStale(db, fam, batch[k]) || IsMet(db, fam, batch, k)
  }

  ghost predicate IsMet(db: Db, fam: FamilyId, batch: seq<PushRecord>, k: int) {
    exists i :: 0 <= i <= k && i < |batch| && TooMuch(db, fam, batch[i])
  }

  lemma BlockedOne(db: Db, exhausted: bool, fam: FamilyId, user: UserId, p: PushRecord)
    requires Structured(db) && fam in db.usage && (IsStale(db, fam, p) || exhausted || TooMuch(db, fam, p))
    ensures var r := PushOne(db, exhausted, fam, user, p);
            r.Done? && r.db == db && r.decision.Refused? && r.exhausted == (exhausted || TooMuch(db, fam, p))
  {
    hide Structured, Decide, After, IsStale;
    if IsStale(db, fam, p) { StaleIsRefused(db, exhausted, fam, user, p); }
  }

  lemma {:induction false} BlockedRun(db: Db, fam: FamilyId, user: UserId, batch: seq<PushRecord>)
    requires Structured(db) && fam in db.usage
    requires forall k :: 0 <= k < |batch| ==> IsBlocked(db, fam, batch, k)
    ensures var g := Run(db, fam, user, batch);
            && g.Going? && g.db == db && AcceptedOf(g.decisions) == []
            && g.exhausted == IsMet(db, fam, batch, |batch| - 1)
  {
    hide Structured, PushOne, AcceptedOf, IsMet, IsStale, TooMuch;
    if batch == [] {
      NoAnswers();
      NothingMet(db, fam);
    } else {
      var front, p, n := batch[..|batch| - 1], batch[|batch| - 1], |batch| - 1;
      forall k | 0 <= k < n ensures IsBlocked(db, fam, front, k) {
        MetAgrees(db, fam, batch, n, k);
        assert IsBlocked(db, fam, batch, k);
      }
      BlockedRun(db, fam, user, front);
      MetAgrees(db, fam, batch, n, n - 1);
      MetOneMore(db, fam, batch, n);
      assert IsBlocked(db, fam, batch, n);
      var g := Run(db, fam, user, front);
      BlockedOne(db, g.exhausted, fam, user, p);
      AnswersSnoc(g.decisions, PushOne(db, g.exhausted, fam, user, p).decision);
    }
  }

  lemma NothingMet(db: Db, fam: FamilyId)
    ensures !IsMet(db, fam, [], -1)
  {
  }

  lemma MetAgrees(db: Db, fam: FamilyId, batch: seq<PushRecord>, n: nat, k: int)
    requires k < n <= |batch|
    ensures IsMet(db, fam, batch[..n], k) == IsMet(db, fam, batch, k)
  {
    hide TooMuch;
  }

  lemma MetOneMore(db: Db, fam: FamilyId, batch: seq<PushRecord>, k: nat)
    requires k < |batch|
    ensures IsMet(db, fam, batch, k) <==> IsMet(db, fam, batch, k - 1) || TooMuch(db, fam, batch[k])
  {
    hide TooMuch;
  }

  /** Where nothing was taken the tables never changed. */
  lemma {:induction false} NothingTaken(db: Db, fam: FamilyId, user: UserId, batch: seq<PushRecord>)
    requires Structured(db) && fam in db.usage && Run(db, fam, user, batch).Going?
    requires AcceptedOf(Run(db, fam, user, batch).decisions) == []
    ensures var g := Run(db, fam, user, batch);
            && g.db == db
            && (g.exhausted ==> exists i :: IsQuotaStop(db, fam, batch, i))
            && (!g.exhausted ==> forall k :: 0 <= k < |batch| ==> IsStale(db, fam, batch[k]))
  {
    hide Structured, PushOne, AcceptedOf, IsStale, TooMuch, IsConflict, IsWrittenAs;
    if batch != [] {
      var front, p, n := batch[..|batch| - 1], batch[|batch| - 1], |batch| - 1;
      var g := Run(db, fam, user, front);
      AnswersSnoc(g.decisions, PushOne(g.db, g.exhausted, fam, user, p).decision);
      NothingTaken(db, fam, user, front);
      PushOneIsAnswer(db, g.exhausted, fam, user, p);
      if g.exhausted {
        var i :| IsQuotaStop(db, fam, front, i);
        assert IsQuotaStop(db, fam, batch, i);
      } else if TooMuch(db, fam, p) {
        assert IsQuotaStop(db, fam, batch, n);
      }
    }
  }

  /** The push is answered with 413 exactly if some record is too much for the family
      as the push found it, and every record before it is stale. */
  lemma QuotaExceededIff(db: Db, fam: FamilyId, user: UserId, batch: seq<PushRecord>)
    requires Structured(db)
    ensures Pushed(db, fam, user, batch).1 == QuotaExceeded <==> exists i :: IsQuotaStop(db, fam, batch, i)
  {
    hide Structured, Run, AcceptedOf, ConflictsOf, IsStale;
    if fam in db.usage && batch != [] {
      if i :| IsQuotaStop(db, fam, batch, i) {
        assert IsMet(db, fam, batch, |batch| - 1);
        BlockedRun(db, fam, user, batch);
      } else if Run(db, fam, user, batch).Going? && AcceptedOf(Run(db, fam, user, batch).decisions) == [] {
        NothingTaken(db, fam, user, batch);
      }
    }
  }

  /** The error answers: 500 for an unknown family alone, 400 exactly if a record reached
      within the quota meets an unreadable timestamp; and then nothing has changed. */
  lemma ErrorAnswersIff(db: Db, fam: FamilyId, user: UserId, batch: seq<PushRecord>)
    requires Valid(db) && user in db.users && batch != []
    ensures var (after, r) := Pushed(db, fam, user, batch);
            && (r == Internal <==> fam !in db.usage)
            && (r == PushResponse.BadTimestamp <==>
                  fam in db.usage && exists i :: AbortsAt(db, fam, user, batch, i))
            && (r == Internal || r == PushResponse.BadTimestamp || r == QuotaExceeded ==> after == db)
  {
    hide Valid, Run, AcceptedOf, ConflictsOf, AbortsAt;
    StructureOf(db);
    if fam in db.usage {
      PushAbortsIff(db, fam, user, batch);
      if Run(db, fam, user, batch).Going? && AcceptedOf(Run(db, fam, user, batch).decisions) == [] {
        NothingTaken(db, fam, user, batch);
      }
    }
  }
}
