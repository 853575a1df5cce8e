/** The transaction of a push batch (backend/internal/sync/push.go). */
module Push {
  import opened Wrappers
  import opened Lww
  import opened Tables
  import opened Records

  datatype PushRecord = PushRecord(
    recordId: RecordId,
    recordType: string,
    ciphertext: bytes,
    stamps: StampMap,
    deletedAt: string,
    parentVersion: int)

  datatype Reason = VersionConflict | QuotaConflict

  datatype PushConflict = PushConflict(recordId: RecordId, current: Current, reason: Reason)

  datatype AcceptedEntry = AcceptedEntry(recordId: RecordId, version: int, seqNo: int)

  datatype PushResponse =
    | Reply(accepted: seq<AcceptedEntry>, conflicts: seq<PushConflict>)
    | QuotaExceeded
    | BadTimestamp
    | Internal

  /** The answer to one record of the batch. */
  datatype Decision = Taken(entry: AcceptedEntry) | Refused(conflict: PushConflict)

  function Params(fam: FamilyId, user: UserId, p: PushRecord): UpsertParams {
    UpsertParams(p.recordId, fam, p.recordType, user, p.ciphertext, p.stamps, p.deletedAt, p.parentVersion)
  }

  /** A conflict that echoes nothing: `currentBlob:""`, version 0. */
  function Blank(id: RecordId, reason: Reason): PushConflict {
    PushConflict(id, Current([], 0, map[], "", "", ""), reason)
  }

  // ---- specification: the usage counter moves with every accepted record ----

  datatype Single = Failed(error: UpsertError) | Done(db: Db, exhausted: bool, decision: Decision)

  function DecidedId(d: Decision): RecordId {
    if d.Taken? then d.entry.recordId else d.conflict.recordId
  }

  /** One record; `exhausted` says that an earlier one has met the quota. */
  function PushOne(db: Db, exhausted: bool, fam: FamilyId, user: UserId, p: PushRecord): (r: Single)
    requires fam in db.usage
    ensures exhausted || OverQuota(db.usage[fam], |p.ciphertext|) ==>
              r == Done(db, true, Refused(Blank(p.recordId, QuotaConflict)))
    ensures !(exhausted || OverQuota(db.usage[fam], |p.ciphertext|)) && r.Done? ==> !r.exhausted
    ensures r.Done? ==> DecidedId(r.decision) == p.recordId
    ensures r.Done? && r.decision.Refused? ==> r.db == db
    ensures r.Done? ==> r.db.usage == db.usage[fam := db.usage[fam] + if r.decision.Taken? then |p.ciphertext| else 0]
  {
    if exhausted || OverQuota(db.usage[fam], |p.ciphertext|) then
      Done(db, true, Refused(Blank(p.recordId, QuotaConflict)))
    else
      match Decide(db, Params(fam, user, p))
      case Accepted(version, seqNo) =>
        Done(Charge(After(db, Params(fam, user, p)), fam, |p.ciphertext|), false,
             Taken(AcceptedEntry(p.recordId, version, seqNo)))
      case Conflict(current) =>
        Done(db, false, Refused(PushConflict(p.recordId, current, VersionConflict)))
      case Rejected(error) =>
        if error.InvalidParentVersion? || error.RecordIdConflict? then
          Done(db, false, Refused(Blank(p.recordId, VersionConflict)))
        else Failed(error)
  }

  datatype Progress =
    | Aborted(error: UpsertError)
    | Going(db: Db, exhausted: bool, decisions: seq<Decision>)

  function PushNext(g: Progress, fam: FamilyId, user: UserId, p: PushRecord): (r: Progress)
    requires g.Going? && fam in g.db.usage
  {
    match PushOne(g.db, g.exhausted, fam, user, p)
    case Failed(error) => Aborted(error)
    case Done(db, exhausted, decision) => Going(db, exhausted, g.decisions + [decision])
  }

  function Run(db: Db, fam: FamilyId, user: UserId, batch: seq<PushRecord>): (r: Progress)
    requires fam in db.usage
    ensures r.Going? ==> fam in r.db.usage && |r.decisions| == |batch|
  {
    if batch == [] then Going(db, false, [])
    else
      var g := Run(db, fam, user, batch[..|batch| - 1]);
      if g.Aborted? then g else PushNext(g, fam, user, batch[|batch| - 1])
  }

  function AcceptedOf(ds: seq<Decision>): seq<AcceptedEntry> {
    if ds == [] then []
    else
      var front, d := AcceptedOf(ds[..|ds| - 1]), ds[|ds| - 1];
      if d.Taken? then front + [d.entry] else front
  }

  function ConflictsOf(ds: seq<Decision>): seq<PushConflict> {
    if ds == [] then []
    else
      var front, d := ConflictsOf(ds[..|ds| - 1]), ds[|ds| - 1];
      if d.Refused? then front + [d.conflict] else front
  }

  lemma AnswersSnoc(ds: seq<Decision>, d: Decision)
    ensures d.Taken? ==>
              AcceptedOf(ds + [d]) == AcceptedOf(ds) + [d.entry] && ConflictsOf(ds + [d]) == ConflictsOf(ds)
    ensures d.Refused? ==>
              AcceptedOf(ds + [d]) == AcceptedOf(ds) && ConflictsOf(ds + [d]) == ConflictsOf(ds) + [d.conflict]
  {
  }

  /** The tables and the answer after a push. */
  function Pushed(db: Db, fam: FamilyId, user: UserId, batch: seq<PushRecord>): (Db, PushResponse) {
    if batch == [] then (db, Reply([], []))
    else if fam !in db.usage then (db, Internal)
    else
      match Run(db, fam, user, batch)
      case Aborted(error) => (db, if error.BadStamp? then PushResponse.BadTimestamp else Internal)
      case Going(after, exhausted, ds) =>
        (after, if AcceptedOf(ds) == [] && exhausted then QuotaExceeded
                else Reply(AcceptedOf(ds), ConflictsOf(ds)))
  }

  /** Deciding does not look at the usage amounts. */
  lemma UsageIsNotRead(db: Db, usage: map<FamilyId, int>, p: UpsertParams)
    requires usage.Keys == db.usage.Keys
    ensures Decide(db.(usage := usage), p) == Decide(db, p)
    ensures p.familyId in db.nextSeq ==> After(db.(usage := usage), p) == After(db, p).(usage := usage)
  {
  }

  datatype Answer = TxError(error: UpsertError) | Answer(exhausted: bool, decision: Decision)

  /** The loop body: quota test, upsert, and the two swallowed errors. The usage
      counter is still the one the transaction began with; `used` is what it would
      be by now. */
  method PushRecordInTx(d: Database, ghost db: Db, fam: FamilyId, user: UserId, v: PushRecord,
                        used: int, quotaExhausted: bool)
    returns (r: Answer)
    requires d.State() == db.(usage := d.usage) && d.usage.Keys == db.usage.Keys
    requires fam in db.usage && db.usage[fam] == used
    modifies d
    ensures match PushOne(db, quotaExhausted, fam, user, v)
            case Failed(error) => r == TxError(error)
            case Done(after, exhausted, decision) =>
              r == Answer(exhausted, decision) && d.State() == after.(usage := old(d.usage))
  {
    hide Decide, After;
    if quotaExhausted || OverQuota(used, |v.ciphertext|) {
      return Answer(true, Refused(Blank(v.recordId, QuotaConflict)));
    }
    UsageIsNotRead(db, d.usage, Params(fam, user, v));
    var result := Upsert(d, Params(fam, user, v));
    match result
    case Rejected(error) =>
      if error.InvalidParentVersion? {
        return Answer(false, Refused(Blank(v.recordId, VersionConflict)));
      }
      if error.RecordIdConflict? {
        return Answer(false, Refused(Blank(v.recordId, VersionConflict)));
      }
      return TxError(error);
    case Conflict(current) =>
      return Answer(false, Refused(PushConflict(v.recordId, current, VersionConflict)));
    case Accepted(version, seqNo) =>
      return Answer(false, Taken(AcceptedEntry(v.recordId, version, seqNo)));
  }

  datatype TxOutcome =
    | TxFailed(error: UpsertError)
    | TxDone(accepted: seq<AcceptedEntry>, conflicts: seq<PushConflict>, totalAcceptedBytes: nat, quotaExhausted: bool)

  /** The loop over the batch; the usage counter stays as it was. */
  method PushAllInTx(d: Database, fam: FamilyId, user: UserId, batch: seq<PushRecord>, familyUsage: int)
    returns (r: TxOutcome)
    requires fam in d.usage && familyUsage == d.usage[fam]
    modifies d
    ensures match Run(old(d.State()), fam, user, batch)
            case Aborted(error) => r == TxFailed(error)
            case Going(after, exhausted, ds) =>
              && r.TxDone? && r == TxDone(AcceptedOf(ds), ConflictsOf(ds), r.totalAcceptedBytes, exhausted)
              && d.State() == after.(usage := old(d.usage))
              && after.usage == old(d.usage)[fam := familyUsage + r.totalAcceptedBytes]
  {
    hide PushOne, AcceptedOf, ConflictsOf;
    ghost var begin := d.State();
    var accepted: seq<AcceptedEntry>, conflicts: seq<PushConflict> := [], [];
    var totalAcceptedBytes := 0;
    var quotaExhausted := false;
    var i := 0;
    ghost var g := Going(begin, false, []);
    NoAnswers();
    while i < |batch|
      invariant 0 <= i <= |batch|
      invariant g.Going? && g == Run(begin, fam, user, batch[..i])
      invariant d.State() == g.db.(usage := begin.usage)
      invariant totalAcceptedBytes >= 0
      invariant g.db.usage == begin.usage[fam := familyUsage + totalAcceptedBytes]
      invariant quotaExhausted == g.exhausted
      invariant accepted == AcceptedOf(g.decisions) && conflicts == ConflictsOf(g.decisions)
    {
      var v := batch[i];
      assert batch[..i + 1][..i] == batch[..i] && batch[..i + 1][i] == v;
      ghost var one := PushOne(g.db, g.exhausted, fam, user, v);
      assert Run(begin, fam, user, batch[..i + 1]) == PushNext(g, fam, user, v);
      var answer := PushRecordInTx(d, g.db, fam, user, v, familyUsage + totalAcceptedBytes, quotaExhausted);
      if answer.TxError? {
        AbortSticks(begin, fam, user, batch, i + 1);
        return TxFailed(answer.error);
      }
      quotaExhausted := answer.exhausted;
      if answer.decision.Taken? {
        accepted := accepted + [answer.decision.entry];
        totalAcceptedBytes := totalAcceptedBytes + |v.ciphertext|;
      } else {
        conflicts := conflicts + [answer.decision.conflict];
      }
      AnswersSnoc(g.decisions, one.decision);
      g := Going(one.db, one.exhausted, g.decisions + [one.decision]);
      i := i + 1;
    }
    assert batch[..i] == batch;
    return TxDone(accepted, conflicts, totalAcceptedBytes, quotaExhausted);
  }

  /** `PostPush`, from the validated batch on: the handler adds the accepted bytes
      to the usage counter once, after the loop. */
  method PostPush(d: Database, fam: FamilyId, user: UserId, batch: seq<PushRecord>) returns (r: PushResponse)
    modifies d
    ensures (d.State(), r) == Pushed(old(d.State()), fam, user, batch)
  {
    hide Run, AcceptedOf, ConflictsOf;
    if |batch| == 0 { return Reply([], []); }
    var begin := d.State();
    if fam !in d.usage { return Internal; }
    var outcome := PushAllInTx(d, fam, user, batch, d.usage[fam]);
    if outcome.TxFailed? {
      d.Rollback(begin);
      return if outcome.error.BadStamp? then PushResponse.BadTimestamp else Internal;
    }
    assert d.usage[fam := d.usage[fam]] == d.usage;
    if outcome.totalAcceptedBytes > 0 {
      d.usage := d.usage[fam := d.usage[fam] + outcome.totalAcceptedBytes];
    }
    if |outcome.accepted| == 0 && outcome.quotaExhausted { return QuotaExceeded; }
    return Reply(outcome.accepted, outcome.conflicts);
  }

  lemma NoAnswers()
    ensures AcceptedOf([]) == [] && ConflictsOf([]) == []
  {
  }

  lemma {:induction false} AbortSticks(db: Db, fam: FamilyId, user: UserId, batch: seq<PushRecord>, i: nat)
    requires fam in db.usage && i <= |batch| && Run(db, fam, user, batch[..i]).Aborted?
    ensures Run(db, fam, user, batch) == Run(db, fam, user, batch[..i])
  {
    if i == |batch| {
      assert batch[..i] == batch;
    } else {
      assert batch[..|batch| - 1][..i] == batch[..i];
      AbortSticks(db, fam, user, batch[..|batch| - 1], i);
    }
  }

  // ---- a batch is its records pushed one at a time, up to the quota ----

  function StateAfter(db: Db, fam: FamilyId, user: UserId, batch: seq<PushRecord>): Db {
    Pushed(db, fam, user, batch).0
  }

  ghost function OneByOne(db: Db, fam: FamilyId, user: UserId, batch: seq<PushRecord>): Db {
    if batch == [] then db
    else StateAfter(OneByOne(db, fam, user, batch[..|batch| - 1]), fam, user, [batch[|batch| - 1]])
  }

  /** The single push of record `i`, after the ones before it, meets a full quota. */
  ghost predicate FullAt(db: Db, fam: FamilyId, user: UserId, batch: seq<PushRecord>, i: nat)
    requires i < |batch|
  {
    var before := OneByOne(db, fam, user, batch[..i]);
    fam in before.usage && OverQuota(before.usage[fam], |batch[i].ciphertext|)
  }

  /** The position of the first record the quota turns away, or the batch length. */
  ghost predicate IsCut(db: Db, fam: FamilyId, user: UserId, batch: seq<PushRecord>, k: nat) {
    && k <= |batch|
    && (forall i: nat :: i < k ==> !FullAt(db, fam, user, batch, i))
    && (k < |batch| ==> FullAt(db, fam, user, batch, k))
  }

  lemma SinglePush(db: Db, fam: FamilyId, user: UserId, p: PushRecord)
    requires fam in db.usage
    ensures Run(db, fam, user, [p]) == PushNext(Going(db, false, []), fam, user, p)
  {
  }

  lemma OneByOneFront(db: Db, fam: FamilyId, user: UserId, batch: seq<PushRecord>, p: PushRecord)
    ensures OneByOne(db, fam, user, batch + [p])
         == StateAfter(OneByOne(db, fam, user, batch), fam, user, [p])
  {
  }

  /** The decision on record `i` is the decision its own push would get. */
  ghost predicate DecidedAlone(db: Db, fam: FamilyId, user: UserId, batch: seq<PushRecord>, i: nat, d: Decision)
    requires i < |batch|
  {
    var before := OneByOne(db, fam, user, batch[..i]);
    fam in before.usage && var alone := Run(before, fam, user, [batch[i]]);
    alone.Going? && alone.decisions == [d]
  }

  ghost predicate AllDecidedAlone(
    db: Db, fam: FamilyId, user: UserId, batch: seq<PushRecord>, k: nat, ds: seq<Decision>)
  {
    k <= |ds| == |batch| && forall i: nat :: i < k ==> DecidedAlone(db, fam, user, batch, i, ds[i])
  }

  ghost predicate AllOverQuota(batch: seq<PushRecord>, k: nat, ds: seq<Decision>) {
    |ds| == |batch|
    && forall i: nat :: k <= i < |batch| ==> ds[i] == Refused(Blank(batch[i].recordId, QuotaConflict))
  }

  /** A batch that is not rolled back leaves exactly the tables of its records
      pushed one at a time, up to the first the quota turns away; those get the
      answers of their single pushes, and everything from there on is refused
      with reason "quota". */
  lemma {:induction false} BatchIsOneByOne(db: Db, fam: FamilyId, user: UserId, batch: seq<PushRecord>, k: nat)
    requires fam in db.usage && Run(db, fam, user, batch).Going?
    requires IsCut(db, fam, user, batch, k)
    ensures var g := Run(db, fam, user, batch);
            && g.db == OneByOne(db, fam, user, batch[..k])
            && g.exhausted == (k < |batch|)
            && AllDecidedAlone(db, fam, user, batch, k, g.decisions)
            && AllOverQuota(batch, k, g.decisions)
  {
    hide PushOne, IsCut;
    if batch == [] {
      EmptyCut(db, fam, user, k);
    } else {
      var n := |batch| - 1;
      var front, k' := batch[..n], if k <= n then k else n;
      PrefixCut(db, fam, user, batch, k);
      BatchIsOneByOne(db, fam, user, front, k');
      assert front[..k'] == batch[..k'];
      LastRecord(db, fam, user, batch, k);
      DecisionsSnoc(db, fam, user, batch, k, Run(db, fam, user, front).decisions,
                    Run(db, fam, user, batch).decisions);
    }
  }

  lemma EmptyCut(db: Db, fam: FamilyId, user: UserId, k: nat)
    requires IsCut(db, fam, user, [], k)
    ensures k == 0
  {
  }

  lemma DecisionsSnoc(db: Db, fam: FamilyId, user: UserId, batch: seq<PushRecord>, k: nat,
                      before: seq<Decision>, after: seq<Decision>)
    requires batch != [] && k <= |batch| && |after| == |batch| && after[..|batch| - 1] == before
    requires var n := |batch| - 1;
             AllDecidedAlone(db, fam, user, batch[..n], if k <= n then k else n, before)
             && AllOverQuota(batch[..n], if k <= n then k else n, before)
    requires var n := |batch| - 1;
             && (k > n ==> DecidedAlone(db, fam, user, batch, n, after[n]))
             && (k <= n ==> after[n] == Refused(Blank(batch[n].recordId, QuotaConflict)))
    ensures AllDecidedAlone(db, fam, user, batch, k, after) && AllOverQuota(batch, k, after)
  {
    var n := |batch| - 1;
    forall i: nat | i < k && i < n
      ensures DecidedAlone(db, fam, user, batch, i, after[i])
    {
      assert batch[..n][..i] == batch[..i];
      assert DecidedAlone(db, fam, user, batch[..n], i, before[i]) && after[i] == before[i];
    }
    assert forall i: nat :: i < n ==> after[i] == before[i];
  }

  /** The induction step: what the last record of the batch does. */
  lemma LastRecord(db: Db, fam: FamilyId, user: UserId, batch: seq<PushRecord>, k: nat)
    requires batch != [] && fam in db.usage && Run(db, fam, user, batch).Going?
    requires IsCut(db, fam, user, batch, k)
    requires var n := |batch| - 1;
             var g := Run(db, fam, user, batch[..n]);
             g.db == OneByOne(db, fam, user, batch[..if k <= n then k else n]) && g.exhausted == (k < n)
    ensures var n, g := |batch| - 1, Run(db, fam, user, batch);
            && g.db == OneByOne(db, fam, user, batch[..k])
            && g.exhausted == (k <= n)
            && (k > n ==> DecidedAlone(db, fam, user, batch, n, g.decisions[n]))
            && (k <= n ==> g.decisions[n] == Refused(Blank(batch[n].recordId, QuotaConflict)))
            && k <= |batch| && g.decisions[..n] == Run(db, fam, user, batch[..n]).decisions
  {
    hide Run, OneByOne, FullAt, DecidedAlone;
    var n := |batch| - 1;
    if k > n {
      assert !FullAt(db, fam, user, batch, n);
      assert batch[..k] == batch;
      LastGetsThrough(db, fam, user, batch);
    } else {
      LastIsTurnedAway(db, fam, user, batch, k);
    }
  }

  lemma LastGetsThrough(db: Db, fam: FamilyId, user: UserId, batch: seq<PushRecord>)
    requires batch != [] && fam in db.usage && Run(db, fam, user, batch).Going?
    requires var n := |batch| - 1;
             var g := Run(db, fam, user, batch[..n]);
             g.db == OneByOne(db, fam, user, batch[..n]) && !g.exhausted && !FullAt(db, fam, user, batch, n)
    ensures var n, g := |batch| - 1, Run(db, fam, user, batch);
            && g.db == OneByOne(db, fam, user, batch) && !g.exhausted
            && DecidedAlone(db, fam, user, batch, n, g.decisions[n])
            && g.decisions[..n] == Run(db, fam, user, batch[..n]).decisions
  {
    hide PushOne, OverQuota;
    var front, p := batch[..|batch| - 1], batch[|batch| - 1];
    assert batch == front + [p];
    OneByOneFront(db, fam, user, front, p);
    SinglePush(Run(db, fam, user, front).db, fam, user, p);
  }

  lemma LastIsTurnedAway(db: Db, fam: FamilyId, user: UserId, batch: seq<PushRecord>, k: nat)
    requires batch != [] && fam in db.usage && Run(db, fam, user, batch).Going? && k < |batch|
    requires FullAt(db, fam, user, batch, k)
    requires var n := |batch| - 1;
             var g := Run(db, fam, user, batch[..n]);
             g.db == OneByOne(db, fam, user, batch[..k]) && g.exhausted == (k < n)
    ensures var n, g := |batch| - 1, Run(db, fam, user, batch);
            && g.db == OneByOne(db, fam, user, batch[..k]) && g.exhausted
            && g.decisions[n] == Refused(Blank(batch[n].recordId, QuotaConflict))
            && g.decisions[..n] == Run(db, fam, user, batch[..n]).decisions
  {
    hide PushOne, OverQuota, OneByOne;
  }

  lemma PrefixCut(db: Db, fam: FamilyId, user: UserId, batch: seq<PushRecord>, k: nat)
    requires batch != [] && IsCut(db, fam, user, batch, k)
    ensures var n := |batch| - 1; IsCut(db, fam, user, batch[..n], if k <= n then k else n)
  {
    var n := |batch| - 1;
    forall i: nat | i < n
      ensures FullAt(db, fam, user, batch[..n], i) == FullAt(db, fam, user, batch, i)
    {
      assert batch[..n][..i] == batch[..i];
    }
  }

  /** There always is a cut. */
  lemma {:induction false} CutExists(db: Db, fam: FamilyId, user: UserId, batch: seq<PushRecord>, from: nat)
    requires from <= |batch| && forall i: nat :: i < from ==> !FullAt(db, fam, user, batch, i)
    ensures exists k: nat :: IsCut(db, fam, user, batch, k)
    decreases |batch| - from
  {
    if from == |batch| || FullAt(db, fam, user, batch, from) {
      assert IsCut(db, fam, user, batch, from);
    } else {
      CutExists(db, fam, user, batch, from + 1);
    }
  }

  // ---- every record is answered once ----

  function AcceptedIds(es: seq<AcceptedEntry>): multiset<RecordId> {
    if es == [] then multiset{} else AcceptedIds(es[..|es| - 1]) + multiset{es[|es| - 1].recordId}
  }

  function ConflictIds(cs: seq<PushConflict>): multiset<RecordId> {
    if cs == [] then multiset{} else ConflictIds(cs[..|cs| - 1]) + multiset{cs[|cs| - 1].recordId}
  }

  function BatchIds(batch: seq<PushRecord>): multiset<RecordId> {
    if batch == [] then multiset{} else BatchIds(batch[..|batch| - 1]) + multiset{batch[|batch| - 1].recordId}
  }

  /** The accepted and the conflicting ids together are the ids of the batch,
      with multiplicity. */
  lemma {:induction false} EveryRecordAnsweredOnce(db: Db, fam: FamilyId, user: UserId, batch: seq<PushRecord>)
    requires fam in db.usage && Run(db, fam, user, batch).Going?
    ensures var ds := Run(db, fam, user, batch).decisions;
            AcceptedIds(AcceptedOf(ds)) + ConflictIds(ConflictsOf(ds)) == BatchIds(batch)
  {
    hide PushOne, AcceptedOf, ConflictsOf;
    if batch == [] {
      NoAnswers();
    } else {
      var n := |batch| - 1;
      EveryRecordAnsweredOnce(db, fam, user, batch[..n]);
      var g := Run(db, fam, user, batch[..n]);
      var d := PushOne(g.db, g.exhausted, fam, user, batch[n]).decision;
      AnswersSnoc(g.decisions, d);
      if d.Taken? { AcceptedIdsSnoc(AcceptedOf(g.decisions), d.entry); }
      else { ConflictIdsSnoc(ConflictsOf(g.decisions), d.conflict); }
    }
  }

  lemma AcceptedIdsSnoc(es: seq<AcceptedEntry>, e: AcceptedEntry)
    ensures AcceptedIds(es + [e]) == AcceptedIds(es) + multiset{e.recordId}
  {
  }

  lemma ConflictIdsSnoc(cs: seq<PushConflict>, c: PushConflict)
    ensures ConflictIds(cs + [c]) == ConflictIds(cs) + multiset{c.recordId}
  {
  }

  function AcceptedBytes(batch: seq<PushRecord>, ds: seq<Decision>): nat
    requires |ds| == |batch|
  {
    if batch == [] then 0
    else
      var n := |batch| - 1;
      AcceptedBytes(batch[..n], ds[..n]) + if ds[n].Taken? then |batch[n].ciphertext| else 0
  }

  lemma {:induction false} UsageRisesByAcceptedBytes(db: Db, fam: FamilyId, user: UserId, batch: seq<PushRecord>)
    requires fam in db.usage && Run(db, fam, user, batch).Going?
    ensures var g := Run(db, fam, user, batch);
            g.db.usage == db.usage[fam := db.usage[fam] + AcceptedBytes(batch, g.decisions)]
  {
    hide PushOne;
    if batch == [] {
      assert db.usage == db.usage[fam := db.usage[fam] + 0];
    } else {
      var n := |batch| - 1;
      UsageRisesByAcceptedBytes(db, fam, user, batch[..n]);
      var g := Run(db, fam, user, batch[..n]);
      assert Run(db, fam, user, batch).decisions[..n] == g.decisions;
    }
  }
}
