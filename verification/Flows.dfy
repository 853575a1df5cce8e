/** Laws across operations of the ledger: an edited transfer is a reverted one
    applied anew; money is conserved; and what the integrity check
    (src/services/integrity.service.ts) looks for never arises. */
module Flows {
  import opened Wrappers
  import opened Sequences
  import opened Ledgers
  import opened LedgerLaws
  import opened LedgerRows
  import opened DebtPayments

  // ---- an edited transfer ----

  ghost predicate SameButCreation(txs: map<Key, Transaction>, others: map<Key, Transaction>) {
    && txs.Keys == others.Keys
    && forall k :: k in txs ==> txs[k].(createdAt := "") == others[k].(createdAt := "")
  }

  ghost predicate SameBooks(b: Books, c: Books) {
    b.accounts == c.accounts && b.nextId == c.nextId && SameButCreation(b.transactions, c.transactions)
  }

  lemma {:induction false} OrderIgnoresCreation(txs: map<Key, Transaction>, others: map<Key,
          Transaction>, date: string, n: nat)
    requires SameButCreation(txs, others)
    ensures MinOrderBelow(txs, date, n) == MinOrderBelow(others, date, n)
  {
    if n > 0 {
      OrderIgnoresCreation(txs, others, date, n - 1);
      if n - 1 in txs {
        var blank, other := txs[n - 1].(createdAt := ""), others[n - 1].(createdAt := "");
        assert blank.date == other.date && blank.displayOrder == other.displayOrder;
      }
    }
  }

  /** Rows that differ in their creation time alone are added alike. */
  lemma AddIgnoresCreation(b: Books, c: Books, d: Draft, created: string, other: string, now: string)
    requires SameBooks(b, c)
    ensures var r, s := AddRow(b, d.id, First(b, d.tx, created, now)), AddRow(c, d.id, First(c, d.tx, other, now));
            && (r.Success? <==> s.Success?)
            && (r.Failure? ==> r.error == s.error)
            && (r.Success? ==> SameBooks(r.value.0, s.value.0) && r.value.1 == s.value.1)
  {
    OrderIgnoresCreation(b.transactions, c.transactions, d.tx.date, b.nextId);
    hide MinOrderBelow;
    assert First(b, d.tx, created, now).(createdAt := "") == First(c, d.tx, other, now).(createdAt := "");
  }

  lemma PairIgnoresCreation(b: Books, outTx: Draft, inTx: Draft, outCreated: string, inCreated: string, now: string)
    ensures var r := PostedPair(b, outTx, inTx, outCreated, inCreated, now);
            var s := PostedPair(b, outTx, inTx, now, now, now);
            && (r.Success? <==> s.Success?)
            && (r.Failure? ==> r.error == s.error)
            && (r.Success? ==> SameBooks(r.value.0, s.value.0) && r.value.1 == s.value.1 && r.value.2 == s.value.2)
  {
    hide BalanceDelta, First, AddRow, SameBooks;
    if BalancedPair(b, outTx.tx, inTx.tx, now).Success? {
      var posted := BalancedPair(b, outTx.tx, inTx.tx, now).value;
      SameAsItself(posted);
      AddIgnoresCreation(posted, posted, outTx, outCreated, now, now);
      if AddRow(posted, outTx.id, First(posted, outTx.tx, outCreated, now)).Success? {
        AddIgnoresCreation(AddRow(posted, outTx.id, First(posted, outTx.tx, outCreated, now)).value.0,
                           AddRow(posted, outTx.id, First(posted, outTx.tx, now, now)).value.0,
                           inTx, inCreated, now, now);
      }
    }
  }

  lemma SameAsItself(b: Books)
    ensures SameBooks(b, b)
  {
  }

  function RevertedThenApplied(b: Books, group: string, outTx: Draft, inTx: Draft, now: string)
    : Result<(Books, Key, Key), LedgerError>
  {
    match RevertedPair(b, group, now)
    case Failure(e) => Failure(e)
    case Success(mid) => AppliedPair(mid, outTx, inTx, now)
  }

  /** Editing a two-legged transfer is reverting it and applying the new legs: the
      same outcome, the same balances, rows, keys and display orders, up to the
      creation time of the legs. That is so as long as the new legs share a group id;
      if they do not, the edit goes on where applying would refuse. */
  lemma EditIsRevertThenApply(b: Books, group: string, outTx: Draft, inTx: Draft, now: string)
    requires |GroupOf(b, group)| == 2
    ensures var edit := ReplacedPair(b, group, outTx, inTx, now);
            var steps := RevertedThenApplied(b, group, outTx, inTx, now);
            if outTx.tx.transferGroupId == inTx.tx.transferGroupId then
              && (edit.Success? <==> steps.Success?)
              && (edit.Failure? ==> edit.error == steps.error)
              && (edit.Success? ==> SameBooks(edit.value.0, steps.value.0)
                                    && edit.value.1 == steps.value.1 && edit.value.2 == steps.value.2)
            else
              steps.Failure? && (edit.Failure? || steps.error == GroupMismatch)
  {
    hide PostedPair, RevertedRecords, CreationOf, SameBooks;
    var ids := GroupOf(b, group);
    if RevertedRecords(b, ids, now).Success? {
      PairIgnoresCreation(RevertedRecords(b, ids, now).value, outTx, inTx,
                          CreationOf(b.transactions, ids, OutLeg, now),
                          CreationOf(b.transactions, ids, InLeg, now), now);
    }
  }

  /** The edited legs keep the creation times of the legs they replace. */
  lemma EditKeepsCreation(b: Books, group: string, outTx: Draft, inTx: Draft, now: string, out0: Key, in0: Key)
    requires ReplacedPair(b, group, outTx, inTx, now).Success?
    requires GroupOf(b, group) == [out0, in0] || GroupOf(b, group) == [in0, out0]
    requires b.transactions[out0].transferDirection == Some(OutLeg)
    requires b.transactions[in0].transferDirection == Some(InLeg)
    ensures var (after, outId, inId) := ReplacedPair(b, group, outTx, inTx, now).value;
            && outId in after.transactions && inId in after.transactions
            && after.transactions[outId].createdAt == b.transactions[out0].createdAt
            && after.transactions[inId].createdAt == b.transactions[in0].createdAt
  {
  }

  // ---- what each step adds to a sum over the rows ----

  function IdsValue(txs: map<Key, Transaction>, m: Measure, ids: seq<Key>): int {
    if ids == [] then 0 else IdsValue(txs, m, ids[..|ids| - 1]) + ValueAt(txs, m, ids[|ids| - 1])
  }

  lemma IdsValueSnoc(txs: map<Key, Transaction>, m: Measure, ids: seq<Key>, k: Key)
    ensures IdsValue(txs, m, ids + [k]) == IdsValue(txs, m, ids) + ValueAt(txs, m, k)
  {
  }

  lemma GroupKeysStep(txs: map<Key, Transaction>, m: Measure, group: string, n: nat)
    requires n > 0
    ensures var front := GroupKeys(txs, group, n - 1);
            if n - 1 in txs && txs[n - 1].transferGroupId == Some(group) then
              && GroupKeys(txs, group, n) == front + [n - 1]
              && ValueAt(txs, InGroup(group, m), n - 1) == ValueAt(txs, m, n - 1)
            else
              GroupKeys(txs, group, n) == front && ValueAt(txs, InGroup(group, m), n - 1) == 0
  {
  }

  lemma {:induction false} GroupSum(txs: map<Key, Transaction>, m: Measure, group: string, n: nat)
    ensures IdsValue(txs, m, GroupKeys(txs, group, n)) == SumBelow(txs, InGroup(group, m), n)
  {
    hide GroupKeys, ValueAt, Value, IdsValue;
    if n > 0 {
      GroupSum(txs, m, group, n - 1);
      GroupKeysStep(txs, m, group, n);
      IdsValueSnoc(txs, m, GroupKeys(txs, group, n - 1), n - 1);
    } else {
      NoKeys(txs, m, group);
    }
  }

  lemma NoKeys(txs: map<Key, Transaction>, m: Measure, group: string)
    ensures IdsValue(txs, m, GroupKeys(txs, group, 0)) == 0
  {
  }

  lemma RevertRecordTotal(b: Books, k: Key, record: Transaction, now: string, m: Measure)
    requires KeysBelow(b) && RevertedRecord(b, k, record, now).Success?
    ensures var after := RevertedRecord(b, k, record, now).value;
            KeysBelow(after) && Total(after, m) == Total(b, m) - ValueAt(b.transactions, m, k)
  {
    hide BalanceDelta, Value;
    var delta := BalanceDelta(b.accounts[record.accountId].kind, record);
    DeleteTotal(Post(b, record.accountId, -delta, now), k, m);
  }

  lemma {:induction false} RevertRecordsTotal(b: Books, ids: seq<Key>, now: string, m: Measure)
    requires KeysBelow(b)
    requires forall i :: 0 <= i < |ids| ==> ids[i] in b.transactions
    requires forall i, j :: 0 <= i < j < |ids| ==> ids[i] != ids[j]
    requires RevertedRecords(b, ids, now).Success?
    ensures var after := RevertedRecords(b, ids, now).value;
            KeysBelow(after) && Total(after, m) == Total(b, m) - IdsValue(b.transactions, m, ids)
  {
    if ids != [] {
      var front, k := ids[..|ids| - 1], ids[|ids| - 1];
      RevertRecordsTotal(b, front, now, m);
      RevertedRows(b, front, now);
      var mid := RevertedRecords(b, front, now).value;
      assert k !in Elements(front) && mid.transactions[k] == b.transactions[k];
      hide RevertedRecord, Value;
      RevertRecordTotal(mid, k, b.transactions[k], now, m);
    }
  }

  lemma GroupTotal(b: Books, group: string, now: string, m: Measure)
    requires KeysBelow(b) && RevertedRecords(b, GroupOf(b, group), now).Success?
    ensures var after := RevertedRecords(b, GroupOf(b, group), now).value;
            KeysBelow(after) && Total(after, m) == Total(b, m) - Total(b, InGroup(group, m))
  {
    RevertRecordsTotal(b, GroupOf(b, group), now, m);
    GroupSum(b.transactions, m, group, b.nextId);
  }

  /** Rows that come minus rows that go. */
  function Change(b: Books, op: Operation, m: Measure): int {
    match op
    case Apply(d) => Value(m, d.tx)
    case Revert(d) => -StoredValue(b, m, d.id)
    case Replace(d, tx) => Value(m, tx) - StoredValue(b, m, d.id)
    case ApplyPair(outTx, inTx) => Value(m, outTx.tx) + Value(m, inTx.tx)
    case RevertPair(group) => -Total(b, InGroup(group, m))
    case ReplacePair(group, outTx, inTx) => Value(m, outTx.tx) + Value(m, inTx.tx) - Total(b, InGroup(group, m))
    case Adjust(_, _) => 0
    case Elsewhere => 0
  }

  lemma ApplyTotal(b: Books, d: Draft, now: string, m: Measure)
    requires KeysBelow(b) && Applied(b, d, now).Success?
    ensures var after := Applied(b, d, now).value.0;
            KeysBelow(after) && Total(after, m) == Total(b, m) + Value(m, d.tx)
  {
    hide BalanceDelta, MinOrder, Value;
    var a := d.tx.accountId;
    var posted, row := Post(b, a, BalanceDelta(b.accounts[a].kind, d.tx), now), First(b, d.tx, now, now);
    AddTotal(posted, d.id, row, m);
    ValueIgnoresStamps(m, d.tx, row.displayOrder, now, now);
  }

  lemma RevertTotal(b: Books, d: Draft, now: string, m: Measure)
    requires KeysBelow(b) && Reverted(b, d, now).Success?
    ensures var after := Reverted(b, d, now).value;
            KeysBelow(after) && Total(after, m) == Total(b, m) - StoredValue(b, m, d.id)
  {
    hide Value;
    assert Reverted(b, d, now) == RevertedRecord(b, d.id.value, d.tx, now);
    RevertRecordTotal(b, d.id.value, d.tx, now, m);
  }

  lemma ReplaceTotal(b: Books, d: Draft, tx: Transaction, now: string, m: Measure)
    requires KeysBelow(b) && Replaced(b, d, tx, now).Success?
    ensures var after := Replaced(b, d, tx, now).value.0;
            KeysBelow(after) && Total(after, m) == Total(b, m) + Value(m, tx) - StoredValue(b, m, d.id)
  {
    RepostKeepsRows(b, d.tx, tx, now);
    hide Reposted, MinOrder, Value;
    var row := Edited(b, d, tx, now);
    PutTotal(Reposted(b, d.tx, tx, now).value, d.id, row, m);
    ValueIgnoresStamps(m, tx, row.displayOrder, d.tx.createdAt, now);
  }

  lemma PostedPairTotal(b: Books, outTx: Draft, inTx: Draft, outCreated: string, inCreated: string,
          now: string, m: Measure)
    requires KeysBelow(b) && PostedPair(b, outTx, inTx, outCreated, inCreated, now).Success?
    ensures var after := PostedPair(b, outTx, inTx, outCreated, inCreated, now).value.0;
            KeysBelow(after) && Total(after, m) == Total(b, m) + Value(m, outTx.tx) + Value(m, inTx.tx)
  {
    BalancedKeepsRows(b, outTx.tx, inTx.tx, now);
    hide BalancedPair, AddedPair, Value;
    AddedPairTotal(BalancedPair(b, outTx.tx, inTx.tx, now).value, outTx, inTx, outCreated, inCreated, now, m);
  }

  lemma ReplacedPairTotal(b: Books, group: string, outTx: Draft, inTx: Draft, now: string, m: Measure)
    requires KeysBelow(b) && ReplacedPair(b, group, outTx, inTx, now).Success?
    ensures var after := ReplacedPair(b, group, outTx, inTx, now).value.0;
            && KeysBelow(after)
            && Total(after, m) == Total(b, m) + Value(m, outTx.tx) + Value(m, inTx.tx) - Total(b, InGroup(group, m))
  {
    hide PostedPair, RevertedRecords, CreationOf, Value, Total;
    var ids := GroupOf(b, group);
    GroupTotal(b, group, now, m);
    PostedPairTotal(RevertedRecords(b, ids, now).value, outTx, inTx, CreationOf(b.transactions, ids, OutLeg, now),
                    CreationOf(b.transactions, ids, InLeg, now), now, m);
  }

  lemma StepTotal(b: Books, op: Operation, now: string, after: Books, m: Measure)
    requires KeysBelow(b) && Step(b, op, now, after)
    ensures KeysBelow(after)
    ensures Total(after, m) == Total(b, m) + if Succeeds(b, op, now) then Change(b, op, m) else 0
  {
    hide Applied, Reverted, Replaced, PostedPair, RevertedRecords, Value, ReplacedPair, StoredValue;
    match op
    case Apply(d) => if Succeeds(b, op, now) { ApplyTotal(b, d, now, m); }
    case Revert(d) => if Succeeds(b, op, now) { RevertTotal(b, d, now, m); }
    case Replace(d, tx) => if Succeeds(b, op, now) { ReplaceTotal(b, d, tx, now, m); }
    case ApplyPair(outTx, inTx) => if Succeeds(b, op, now) { PostedPairTotal(b, outTx, inTx, now, now, now, m); }
    case RevertPair(group) => if Succeeds(b, op, now) { GroupTotal(b, group, now, m); }
    case ReplacePair(group, outTx, inTx) =>
      if Succeeds(b, op, now) { ReplacedPairTotal(b, group, outTx, inTx, now, m); }
    case Adjust(a, newBalance) =>
    case Elsewhere =>
  }

  // ---- conservation ----

  /** Two legs of one amount, one out of an account and one into another or the same. */
  predicate IsPair(outTx: Transaction, inTx: Transaction) {
    && outTx.kind.Transfer? && outTx.transferDirection != Some(InLeg)
    && inTx.kind.Transfer? && inTx.transferDirection == Some(InLeg)
    && outTx.amount == inTx.amount && outTx.transferGroupId == inTx.transferGroupId
  }

  /** Transfers come and go in pairs of equal legs (one currency); single rows are
      incomes and expenses. */
  ghost predicate KeepsPairs(op: Operation) {
    match op
    case Apply(d) => !d.tx.kind.Transfer?
    case Revert(d) => !d.tx.kind.Transfer?
    case Replace(d, tx) => !d.tx.kind.Transfer? && !tx.kind.Transfer?
    case ApplyPair(outTx, inTx) => IsPair(outTx.tx, inTx.tx)
    case ReplacePair(_, outTx, inTx) => IsPair(outTx.tx, inTx.tx)
    case _ => true
  }

  /** What left accounts on transfers has entered accounts, group by group. */
  ghost predicate GapsClosed(b: Books) {
    && Total(b, Gap) == 0
    && forall g :: Total(b, InGroup(g, Gap)) == 0
  }

  lemma {:induction false} NestedGroups(txs: map<Key, Transaction>, h: string, g: string, m: Measure, n: nat)
    ensures SumBelow(txs, InGroup(h, InGroup(g, m)), n) == if h == g then SumBelow(txs, InGroup(g, m), n) else 0
  {
    if n > 0 {
      NestedGroups(txs, h, g, m, n - 1);
      if n - 1 in txs { NestedValue(txs[n - 1], h, g, m); }
      hide Value;
    }
  }

  lemma NestedValue(tx: Transaction, h: string, g: string, m: Measure)
    ensures Value(InGroup(h, InGroup(g, m)), tx) == if h == g then Value(InGroup(g, m), tx) else 0
  {
  }

  lemma ChangeOfGap(b: Books, op: Operation, m: Measure, g: string)
    requires GapsClosed(b) && KeepsPairs(op) && PassesStored(b, op)
    requires m == Gap || m == InGroup(g, Gap)
    ensures Change(b, op, m) == 0
  {
    if op.RevertPair? || op.ReplacePair? {
      assert Total(b, InGroup(op.group, Gap)) == 0;
      NestedGroups(b.transactions, op.group, g, Gap, b.nextId);
    }
    assert forall tx: Transaction ::
      Value(InGroup(g, Gap), tx) == if tx.transferGroupId == Some(g) then Value(Gap, tx) else 0;
    hide SumBelow;
  }

  lemma StepKeepsGaps(b: Books, op: Operation, now: string, after: Books)
    requires KeysBelow(b) && GapsClosed(b) && Step(b, op, now, after) && KeepsPairs(op) && PassesStored(b, op)
    ensures GapsClosed(after)
  {
    hide Step, Change, Succeeds, KeepsPairs;
    StepTotal(b, op, now, after, Gap);
    ChangeOfGap(b, op, Gap, "");
    forall g ensures Total(after, InGroup(g, Gap)) == 0 {
      StepTotal(b, op, now, after, InGroup(g, Gap));
      ChangeOfGap(b, op, InGroup(g, Gap), g);
    }
  }

  /** Every stored row is of an account that exists. */
  ghost predicate RefsOk(b: Books) {
    forall k :: k in b.transactions ==> b.transactions[k].accountId in b.accounts
  }

  lemma PairKeepsRefs(b: Books, outTx: Draft, inTx: Draft, outCreated: string, inCreated: string, now: string)
    requires RefsOk(b) && PostedPair(b, outTx, inTx, outCreated, inCreated, now).Success?
    ensures RefsOk(PostedPair(b, outTx, inTx, outCreated, inCreated, now).value.0)
  {
  }

  lemma RevertKeepsRefs(b: Books, ids: seq<Key>, now: string)
    requires forall i :: 0 <= i < |ids| ==> ids[i] in b.transactions
    requires RefsOk(b) && RevertedRecords(b, ids, now).Success?
    ensures RefsOk(RevertedRecords(b, ids, now).value)
  {
  }

  lemma ReplaceKeepsRefs(b: Books, d: Draft, tx: Transaction, now: string)
    requires RefsOk(b) && Replaced(b, d, tx, now).Success?
    ensures RefsOk(Replaced(b, d, tx, now).value.0)
  {
  }

  lemma ApplyKeepsRefs(b: Books, d: Draft, now: string)
    requires RefsOk(b) && Applied(b, d, now).Success?
    ensures RefsOk(Applied(b, d, now).value.0)
  {
  }

  /** No operation leaves a row without its account. */
  lemma StepKeepsRefs(b: Books, op: Operation, now: string, after: Books)
    requires RefsOk(b) && Step(b, op, now, after)
    ensures RefsOk(after)
  {
    hide Applied, Replaced, PostedPair, RevertedRecords, CreationOf, BalanceDelta;
    match op
    case Apply(d) => if Applied(b, d, now).Success? { ApplyKeepsRefs(b, d, now); }
    case Revert(d) =>
    case Replace(d, tx) => if Replaced(b, d, tx, now).Success? { ReplaceKeepsRefs(b, d, tx, now); }
    case ApplyPair(outTx, inTx) =>
      if AppliedPair(b, outTx, inTx, now).Success? { PairKeepsRefs(b, outTx, inTx, now, now, now); }
    case RevertPair(group) =>
      if RevertedPair(b, group, now).Success? { RevertKeepsRefs(b, GroupOf(b, group), now); }
    case ReplacePair(group, outTx, inTx) =>
      if ReplacedPair(b, group, outTx, inTx, now).Success? {
        var ids := GroupOf(b, group);
        RevertKeepsRefs(b, ids, now);
        PairKeepsRefs(RevertedRecords(b, ids, now).value, outTx, inTx, CreationOf(b.transactions, ids, OutLeg, now),
                      CreationOf(b.transactions, ids, InLeg, now), now);
      }
    case Adjust(a, newBalance) =>
    case Elsewhere =>
  }

  /** A row changes net worth by income, expense, its side of a transfer, and the
      interest that a debt payment loses on the way. */
  lemma FlowOfRow(kinds: Kinds, tx: Transaction)
    requires tx.accountId in kinds
    ensures Effect(NetWorth, kinds, tx)
         == Value(Incomes, tx) - Value(Expenses, tx) + Value(Gap, tx) - Value(Interest(kinds), tx)
  {
  }

  lemma {:induction false} FlowOfRows(txs: map<Key, Transaction>, kinds: Kinds, n: nat)
    requires forall k :: k in txs ==> txs[k].accountId in kinds
    ensures SumBelow(txs, Weighted(NetWorth, kinds), n)
         == SumBelow(txs, Incomes, n) - SumBelow(txs, Expenses, n) + SumBelow(txs, Gap, n)
            - SumBelow(txs, Interest(kinds), n)
  {
    if n > 0 {
      FlowOfRows(txs, kinds, n - 1);
      if n - 1 in txs { FlowOfRow(kinds, txs[n - 1]); }
      hide Value;
    }
  }

  lemma {:induction false} LifeKeepsPairs(es: seq<Event>, bs: seq<Books>, i: nat, kinds: Kinds, n: nat)
    requires IsLife(es, bs, kinds, n) && i <= |es|
    requires forall k :: 0 <= k < |es| ==> KeepsPairs(es[k].op)
    ensures GapsClosed(bs[i]) && RefsOk(bs[i]) && KeysBelow(bs[i])
  {
    if i == 0 {
      assert forall m :: SumBelow(map[], m, 0) == 0 && SumBelow(map[], m, 1) == 0;
    } else {
      hide Step, GapsClosed, RefsOk, KeepsPairs, PassesStored;
      LifeKeepsPairs(es, bs, i - 1, kinds, n);
      assert Step(bs[i - 1], es[i - 1].op, es[i - 1].now, bs[i]) && PassesStored(bs[i - 1], es[i - 1].op)
          && Fits(bs[i], kinds, n);
      StepKeepsGaps(bs[i - 1], es[i - 1].op, es[i - 1].now, bs[i]);
      StepKeepsRefs(bs[i - 1], es[i - 1].op, es[i - 1].now, bs[i]);
    }
  }

  /** Net worth (balances, debts counting negative) is what was set by hand plus
      incomes minus expenses minus the interest parts of debt payments; transfers
      neither make nor lose money. */
  lemma NetWorthIsConserved(es: seq<Event>, bs: seq<Books>, i: nat, kinds: Kinds, n: nat)
    requires IsLife(es, bs, kinds, n) && i <= |es|
    requires forall k :: 0 <= k < |es| ==> KeepsPairs(es[k].op)
    ensures BalancesBelow(bs[i].accounts, NetWorth, n)
         == SetByHand(es, bs, i, NetWorth, n)
            + Total(bs[i], Incomes) - Total(bs[i], Expenses) - Total(bs[i], Interest(kinds))
  {
    LifeKeeps(es, bs, i, NetWorth, kinds, n);
    LifeKeepsPairs(es, bs, i, kinds, n);
    assert Fits(bs[i], kinds, n);
    hide IsLife, SetByHand, BalancesBelow;
    FlowOfRows(bs[i].transactions, kinds, bs[i].nextId);
  }

  /** The interest part of a split payment is exactly what net worth loses by it. */
  lemma InterestOfSplit(kinds: Kinds, tx: Transaction, owed: int, monthlyRate: real)
    requires tx.kind.Transfer? && tx.transferDirection == Some(InLeg)
    requires tx.accountId in kinds && kinds[tx.accountId].Debt?
    requires tx.principalAmount == Some(SplitPayment(owed, monthlyRate, tx.amount).principal)
    ensures Value(Interest(kinds), tx) == SplitPayment(owed, monthlyRate, tx.amount).interest
  {
  }

  // ---- legs of transfers ----

  function LegCount(b: Books, g: string): int {
    Total(b, InGroup(g, Rows))
  }

  /** Every transfer group in use has exactly two legs. */
  ghost predicate LegsOk(b: Books) {
    forall g :: LegCount(b, g) == 0 || LegCount(b, g) == 2
  }

  /** The group of the row stored under a key, if there is one. */
  function StoredGroup(b: Books, id: Option<Key>): Option<string> {
    if id.Some? && id.value in b.transactions then b.transactions[id.value].transferGroupId else None
  }

  predicate LegsFree(b: Books, group: Option<string>) {
    group.Some? ==> LegCount(b, group.value) == 0
  }

  /** What a caller must see to for the groups to stay whole: a single row neither
      joins nor leaves a group; two new legs share one, unused but for the legs they
      replace. */
  predicate KeepsGroups(b: Books, op: Operation) {
    match op
    case Apply(d) => d.tx.transferGroupId.None?
    case Revert(d) => StoredGroup(b, d.id).None?
    case Replace(d, tx) => StoredGroup(b, d.id) == tx.transferGroupId
    case ApplyPair(outTx, _) => LegsFree(b, outTx.tx.transferGroupId)
    case ReplacePair(group, outTx, inTx) =>
      && outTx.tx.transferGroupId == inTx.tx.transferGroupId
      && (outTx.tx.transferGroupId == Some(group) || LegsFree(b, outTx.tx.transferGroupId))
    case _ => true
  }

  function Leg(group: Option<string>, g: string): int {
    if group == Some(g) then 1 else 0
  }

  /** How many legs of group `g` an operation adds. */
  function LegsAdded(b: Books, op: Operation, g: string): int {
    match op
    case Apply(d) => Leg(d.tx.transferGroupId, g)
    case Revert(d) => -Leg(StoredGroup(b, d.id), g)
    case Replace(d, tx) => Leg(tx.transferGroupId, g) - Leg(StoredGroup(b, d.id), g)
    case ApplyPair(outTx, inTx) => Leg(outTx.tx.transferGroupId, g) + Leg(inTx.tx.transferGroupId, g)
    case RevertPair(group) => if g == group then -LegCount(b, g) else 0
    case ReplacePair(group, outTx, inTx) =>
      Leg(outTx.tx.transferGroupId, g) + Leg(inTx.tx.transferGroupId, g) - if g == group then LegCount(b, g) else 0
    case _ => 0
  }

  lemma LegsAfter(b: Books, op: Operation, now: string, after: Books, g: string)
    requires KeysBelow(b) && Step(b, op, now, after)
    ensures LegCount(after, g) == LegCount(b, g) + if Succeeds(b, op, now) then LegsAdded(b, op, g) else 0
  {
    hide Step, Succeeds, Change, LegsAdded;
    StepTotal(b, op, now, after, InGroup(g, Rows));
    ChangeOfLegs(b, op, g);
  }

  lemma ChangeOfLegs(b: Books, op: Operation, g: string)
    ensures Change(b, op, InGroup(g, Rows)) == LegsAdded(b, op, g)
  {
    if op.RevertPair? || op.ReplacePair? { NestedGroups(b.transactions, op.group, g, Rows, b.nextId); }
    assert forall tx: Transaction :: Value(InGroup(g, Rows), tx) == Leg(tx.transferGroupId, g);
    hide Value, SumBelow;
  }

  /** An operation keeps every group at two legs exactly when it fails or its caller
      keeps the rule; an edit whose new legs carry different group ids breaks one. */
  lemma GroupsStayWholeIff(b: Books, op: Operation, now: string, after: Books)
    requires KeysBelow(b) && LegsOk(b) && Step(b, op, now, after)
    ensures LegsOk(after) <==> !Succeeds(b, op, now) || KeepsGroups(b, op)
  {
    PairsShareGroup(b, op, now);
    hide Step, Succeeds, LegCount, LegsAdded, KeepsGroups;
    forall g ensures LegCount(after, g) == LegCount(b, g) + if Succeeds(b, op, now) then LegsAdded(b, op, g) else 0 {
      LegsAfter(b, op, now, after, g);
    }
    if Succeeds(b, op, now) { LegsOkIff(b, op, after); }
  }

  /** The group an operation could break. */
  function GroupAtRisk(b: Books, op: Operation): Option<string> {
    match op
    case Apply(d) => d.tx.transferGroupId
    case Revert(d) => StoredGroup(b, d.id)
    case Replace(d, tx) => if StoredGroup(b, d.id).Some? then StoredGroup(b, d.id) else tx.transferGroupId
    case ApplyPair(outTx, _) => outTx.tx.transferGroupId
    case ReplacePair(_, outTx, inTx) =>
      if outTx.tx.transferGroupId.Some? then outTx.tx.transferGroupId else inTx.tx.transferGroupId
    case _ => None
  }

  lemma LegsOkIff(b: Books, op: Operation, after: Books)
    requires LegsOk(b)
    requires op.ApplyPair? ==> op.outTx.tx.transferGroupId == op.inTx.tx.transferGroupId
    requires forall g :: LegCount(after, g) == LegCount(b, g) + LegsAdded(b, op, g)
    ensures LegsOk(after) <==> KeepsGroups(b, op)
  {
    hide LegCount;
    if KeepsGroups(b, op) {
      forall g ensures LegCount(after, g) == 0 || LegCount(after, g) == 2 {
        assert LegCount(b, g) == 0 || LegCount(b, g) == 2;
      }
    } else {
      var g := GroupAtRisk(b, op).value;
      assert LegCount(b, g) == 0 || LegCount(b, g) == 2;
      assert LegCount(after, g) != 0 && LegCount(after, g) != 2;
    }
  }

  lemma PairsShareGroup(b: Books, op: Operation, now: string)
    ensures op.ApplyPair? && Succeeds(b, op, now) ==> op.outTx.tx.transferGroupId == op.inTx.tx.transferGroupId
  {
  }

  // ---- an edit with two group ids ----

  function LegOf(account: Key, direction: Direction, group: string): Transaction {
    Transaction(Transfer, "day", 0, account, 5, None, Some(group), Some(direction), "", "", "")
  }

  /** Two accounts and a transfer between them. */
  const TWO_LEGS: Books :=
    Books(map[1 := Account(Regular, -5, false, "", ""), 2 := Account(Regular, 5, false, "", "")],
          map[1 := LegOf(1, OutLeg, "g"), 2 := LegOf(2, InLeg, "g")], 3)

  lemma TwoLegsOk()
    ensures KeysBelow(TWO_LEGS) && LegsOk(TWO_LEGS)
  {
    var txs := TWO_LEGS.transactions;
    forall g ensures LegCount(TWO_LEGS, g) == if g == "g" then 2 else 0 {
      var m := InGroup(g, Rows);
      assert Value(Rows, txs[1]) == Value(Rows, txs[2]) == 1;
      assert SumBelow(txs, m, 1) == ValueAt(txs, m, 0) == 0;
      assert SumBelow(txs, m, 2) == ValueAt(txs, m, 1);
      assert SumBelow(txs, m, 3) == ValueAt(txs, m, 1) + ValueAt(txs, m, 2);
    }
  }

  lemma NoKeysYet(txs: map<Key, Transaction>, group: string)
    ensures GroupKeys(txs, group, 0) == []
  {
  }

  lemma KeysOfPair(txs: map<Key, Transaction>, group: string)
    requires txs.Keys == {1, 2} && txs[1].transferGroupId == txs[2].transferGroupId == Some(group)
    ensures GroupKeys(txs, group, 3) == [1, 2]
  {
    hide GroupKeys, Value;
    GroupKeysStep(txs, Rows, group, 3);
    GroupKeysStep(txs, Rows, group, 2);
    GroupKeysStep(txs, Rows, group, 1);
    NoKeysYet(txs, group);
  }

  lemma TwoLegsGroup()
    ensures GroupOf(TWO_LEGS, "g") == [1, 2]
  {
    hide GroupKeys;
    KeysOfPair(TWO_LEGS.transactions, "g");
  }

  /** An edit whose new legs carry different group ids can go through, and then leaves
      two groups of one leg each. */
  lemma MismatchedEditBreaksGroups(now: string)
    ensures var edit := ReplacePair("g", Draft(None, LegOf(1, OutLeg, "h")), Draft(None, LegOf(2, InLeg, "i")));
            && KeysBelow(TWO_LEGS) && LegsOk(TWO_LEGS) && Succeeds(TWO_LEGS, edit, now)
            && forall after :: Step(TWO_LEGS, edit, now, after) ==> !LegsOk(after)
  {
    hide KeysBelow, LegsOk, GroupOf, Succeeds, Step;
    var outTx, inTx := LegOf(1, OutLeg, "h"), LegOf(2, InLeg, "i");
    var edit := ReplacePair("g", Draft(None, outTx), Draft(None, inTx));
    TwoLegsOk();
    TwoLegsGroup();
    SucceedsIff(TWO_LEGS, edit, now);
    forall after | Step(TWO_LEGS, edit, now, after) ensures !LegsOk(after) {
      GroupsStayWholeIff(TWO_LEGS, edit, now, after);
    }
  }
}
