/** What each operation of the ledger stores, and when it goes through: told from the
    tables and the arguments, column by column. */
module LedgerRows {
  import opened Wrappers
  import opened Sequences
  import opened Ledgers
  import opened LedgerLaws

  // ---- rows and accounts ----

  /** The row has every column of `tx` that the service does not fill in itself. */
  predicate IsStored(row: Transaction, tx: Transaction, created: string, now: string) {
    && row.kind == tx.kind && row.date == tx.date && row.accountId == tx.accountId
    && row.amount == tx.amount && row.principalAmount == tx.principalAmount
    && row.transferGroupId == tx.transferGroupId && row.transferDirection == tx.transferDirection
    && row.other == tx.other
    && row.createdAt == created && row.updatedAt == now
  }

  /** Order 0 on an empty day, else right before the first row of it. */
  ghost predicate IsPlacedFirst(txs: map<Key, Transaction>, row: Transaction) {
    if forall k :: k in txs ==> txs[k].date != row.date then row.displayOrder == 0
    else
      && (forall k :: k in txs && txs[k].date == row.date ==> row.displayOrder < txs[k].displayOrder)
      && exists k :: k in txs && txs[k].date == row.date && txs[k].displayOrder == row.displayOrder + 1
  }

  /** The accounts named have a new balance, as of now; no other has changed. */
  ghost predicate OnlyBalances(b: Books, after: Books, named: set<Key>, now: string) {
    && after.accounts.Keys == b.accounts.Keys && named <= b.accounts.Keys
    && forall a :: a in b.accounts ==>
         var was, now' := b.accounts[a], after.accounts[a];
         if a in named then
           && now'.kind == was.kind && now'.isTrashed == was.isTrashed && now'.other == was.other
           && now'.updatedAt == now
         else now' == was
  }

  /** A row given without a key gets the next one. */
  function KeyOf(b: Books, d: Draft): Key {
    if d.id.Some? then d.id.value else b.nextId
  }

  lemma FirstIsPlaced(b: Books, tx: Transaction, created: string, now: string)
    requires KeysBelow(b)
    ensures IsPlacedFirst(b.transactions, First(b, tx, created, now))
    ensures IsStored(First(b, tx, created, now), tx, created, now)
  {
    MinOrderIsLeast(b.transactions, tx.date, b.nextId);
  }

  // ---- single rows ----

  lemma ApplyStores(b: Books, d: Draft, now: string)
    requires KeysBelow(b) && Applied(b, d, now).Success?
    ensures var (after, id) := Applied(b, d, now).value;
            && id == KeyOf(b, d) && id !in b.transactions && id in after.transactions
            && var row := after.transactions[id];
            && after.transactions == b.transactions[id := row]
            && IsStored(row, d.tx, now, now) && IsPlacedFirst(b.transactions, row)
            && OnlyBalances(b, after, {d.tx.accountId}, now)
  {
    FirstIsPlaced(b, d.tx, now, now);
    hide BalanceDelta, MinOrder, IsPlacedFirst, IsStored;
  }

  lemma RevertStores(b: Books, d: Draft, now: string)
    requires Reverted(b, d, now).Success?
    ensures var after := Reverted(b, d, now).value;
            && d.id.Some? && after.transactions == b.transactions - {d.id.value}
            && OnlyBalances(b, after, {d.tx.accountId}, now)
  {
    hide BalanceDelta;
  }

  /** An edit stores the new transaction under the old key: nothing of the old row stays
      but its creation time and, within one day, its place. */
  lemma ReplaceStores(b: Books, prior: Draft, tx: Transaction, now: string)
    requires KeysBelow(b) && Replaced(b, prior, tx, now).Success?
    ensures var (after, id) := Replaced(b, prior, tx, now).value;
            && id == KeyOf(b, prior) && id in after.transactions
            && var row := after.transactions[id];
            && after.transactions == b.transactions[id := row]
            && IsStored(row, tx, prior.tx.createdAt, now)
            && (if tx.date == prior.tx.date then row.displayOrder == prior.tx.displayOrder
                else IsPlacedFirst(b.transactions, row))
            && OnlyBalances(b, after, {prior.tx.accountId, tx.accountId}, now)
  {
    RepostKeepsRows(b, prior.tx, tx, now);
    FirstIsPlaced(b, tx, prior.tx.createdAt, now);
    RepostMoves(b, prior.tx, tx, now);
    var posted := Reposted(b, prior.tx, tx, now).value;
    MinOrderIgnoresAccounts(posted, b, tx.date);
    hide Reposted, MinOrder, OnlyBalances;
    PutKeepsAccounts(b, posted, prior.id, Edited(b, prior, tx, now), {prior.tx.accountId, tx.accountId}, now);
  }

  lemma RepostMoves(b: Books, prior: Transaction, tx: Transaction, now: string)
    requires Reposted(b, prior, tx, now).Success?
    ensures OnlyBalances(b, Reposted(b, prior, tx, now).value, {prior.accountId, tx.accountId}, now)
  {
    hide BalanceDelta;
  }

  lemma PutKeepsAccounts(b: Books, posted: Books, id: Option<Key>, tx: Transaction, named: set<Key>, now: string)
    requires OnlyBalances(b, posted, named, now)
    ensures OnlyBalances(b, PutRow(posted, id, tx).0, named, now)
  {
  }

  lemma AdjustStores(b: Books, a: Key, newBalance: int, now: string)
    requires Adjusted(b, a, newBalance, now).Success?
    ensures var after := Adjusted(b, a, newBalance, now).value;
            && after.transactions == b.transactions && OnlyBalances(b, after, {a}, now)
            && a in after.accounts && after.accounts[a].balance == newBalance
  {
  }

  // ---- transfers ----

  /** Both legs are stored, the OUT leg first, then the IN leg before it. */
  ghost predicate LegsStored(txs: map<Key, Transaction>, outTx: Transaction, inTx: Transaction, outCreated: string,
                             inCreated: string, now: string, after: map<Key, Transaction>, outId: Key, inId: Key)
  {
    && outId != inId && outId !in txs && inId !in txs && outId in after && inId in after
    && var outRow, inRow := after[outId], after[inId];
    && after == txs[outId := outRow][inId := inRow]
    && IsStored(outRow, outTx, outCreated, now) && IsPlacedFirst(txs, outRow)
    && IsStored(inRow, inTx, inCreated, now) && IsPlacedFirst(txs[outId := outRow], inRow)
  }

  lemma AddStores(b: Books, d: Draft, created: string, now: string)
    requires KeysBelow(b) && AddRow(b, d.id, First(b, d.tx, created, now)).Success?
    ensures var (after, id) := AddRow(b, d.id, First(b, d.tx, created, now)).value;
            && id == KeyOf(b, d) && id !in b.transactions && id in after.transactions
            && var row := after.transactions[id];
            && after.transactions == b.transactions[id := row]
            && IsStored(row, d.tx, created, now) && IsPlacedFirst(b.transactions, row)
            && after.accounts == b.accounts && KeysBelow(after)
  {
    FirstIsPlaced(b, d.tx, created, now);
    hide First, IsPlacedFirst, IsStored;
  }

  lemma LegsAreStored(b: Books, outTx: Draft, inTx: Draft, outCreated: string, inCreated: string, now: string)
    requires KeysBelow(b) && AddedPair(b, outTx, inTx, outCreated, inCreated, now).Success?
    ensures var (after, outId, inId) := AddedPair(b, outTx, inTx, outCreated, inCreated, now).value;
            && LegsStored(b.transactions, outTx.tx, inTx.tx, outCreated, inCreated, now,
                          after.transactions, outId, inId)
            && after.accounts == b.accounts && outId == KeyOf(b, outTx) && (inTx.id.Some? ==> inId == inTx.id.value)
  {
    hide First, AddRow, IsPlacedFirst, IsStored, KeysBelow;
    AddStores(b, outTx, outCreated, now);
    AddStores(AddRow(b, outTx.id, First(b, outTx.tx, outCreated, now)).value.0, inTx, inCreated, now);
  }

  lemma PairStores(b: Books, outTx: Draft, inTx: Draft, outCreated: string, inCreated: string, now: string)
    requires KeysBelow(b) && PostedPair(b, outTx, inTx, outCreated, inCreated, now).Success?
    ensures var (after, outId, inId) := PostedPair(b, outTx, inTx, outCreated, inCreated, now).value;
            && LegsStored(b.transactions, outTx.tx, inTx.tx, outCreated, inCreated, now,
                          after.transactions, outId, inId)
            && OnlyBalances(b, after, {outTx.tx.accountId, inTx.tx.accountId}, now)
            && outId == KeyOf(b, outTx) && (inTx.id.Some? ==> inId == inTx.id.value)
  {
    hide BalancedPair, AddedPair, LegsStored;
    BalancedMoves(b, outTx.tx, inTx.tx, now);
    LegsAreStored(BalancedPair(b, outTx.tx, inTx.tx, now).value, outTx, inTx, outCreated, inCreated, now);
  }

  lemma BalancedMoves(b: Books, outTx: Transaction, inTx: Transaction, now: string)
    requires BalancedPair(b, outTx, inTx, now).Success?
    ensures var posted := BalancedPair(b, outTx, inTx, now).value;
            && posted.transactions == b.transactions && posted.nextId == b.nextId
            && OnlyBalances(b, posted, {outTx.accountId, inTx.accountId}, now)
  {
    hide BalanceDelta;
  }

  /** A transfer stores both legs, as of now. */
  lemma ApplyPairStores(b: Books, outTx: Draft, inTx: Draft, now: string)
    requires KeysBelow(b) && AppliedPair(b, outTx, inTx, now).Success?
    ensures var (after, outId, inId) := AppliedPair(b, outTx, inTx, now).value;
            && LegsStored(b.transactions, outTx.tx, inTx.tx, now, now, now, after.transactions, outId, inId)
            && OnlyBalances(b, after, {outTx.tx.accountId, inTx.tx.accountId}, now)
  {
    PairStores(b, outTx, inTx, now, now, now);
  }

  lemma {:induction false} RecordsMove(b: Books, ids: seq<Key>, now: string)
    requires forall i :: 0 <= i < |ids| ==> ids[i] in b.transactions
    requires RevertedRecords(b, ids, now).Success?
    ensures OnlyBalances(b, RevertedRecords(b, ids, now).value, AccountsOf(b, ids), now)
  {
    if ids != [] {
      var front, k := ids[..|ids| - 1], ids[|ids| - 1];
      RecordsMove(b, front, now);
      var mid := RevertedRecords(b, front, now).value;
      RecordMoves(mid, k, b.transactions[k], now);
      assert ids == front + [k];
      AccountsSnoc(b, front, k);
      hide RevertedRecord, AccountsOf;
      MovesCompose(b, mid, RevertedRecords(b, ids, now).value, AccountsOf(b, front),
                   {b.transactions[k].accountId}, now);
    } else {
      assert AccountsOf(b, ids) == {};
    }
  }

  lemma RecordMoves(b: Books, k: Key, record: Transaction, now: string)
    requires RevertedRecord(b, k, record, now).Success?
    ensures OnlyBalances(b, RevertedRecord(b, k, record, now).value, {record.accountId}, now)
  {
    hide BalanceDelta;
  }

  lemma MovesCompose(b: Books, mid: Books, after: Books, first: set<Key>, second: set<Key>, now: string)
    requires OnlyBalances(b, mid, first, now) && OnlyBalances(mid, after, second, now)
    ensures OnlyBalances(b, after, first + second, now)
  {
  }

  lemma GroupIs(b: Books, group: string)
    requires KeysBelow(b)
    ensures forall k :: k in Elements(GroupOf(b, group)) <==>
              k in b.transactions && b.transactions[k].transferGroupId == Some(group)
  {
    hide KeysBelow;
    var ids := GroupOf(b, group);
    forall k | k in b.transactions && b.transactions[k].transferGroupId == Some(group)
      ensures k in Elements(ids)
    {
      assert KeysBelow(b) ==> k < b.nextId by { KeyIsBelow(b, k); }
      assert k in ids;
    }
  }

  lemma KeyIsBelow(b: Books, k: Key)
    requires KeysBelow(b) && k in b.transactions
    ensures k < b.nextId
  {
  }

  /** The rows that are not in the group. */
  function Others(txs: map<Key, Transaction>, group: string): map<Key, Transaction> {
    map k | k in txs && txs[k].transferGroupId != Some(group) :: txs[k]
  }

  lemma GroupGoes(b: Books, group: string, now: string)
    requires KeysBelow(b) && RevertedRecords(b, GroupOf(b, group), now).Success?
    ensures var after := RevertedRecords(b, GroupOf(b, group), now).value;
            && KeysBelow(after) && after.nextId == b.nextId
            && after.transactions == Others(b.transactions, group)
            && OnlyBalances(b, after, AccountsOf(b, GroupOf(b, group)), now)
  {
    RevertedRows(b, GroupOf(b, group), now);
    GroupIs(b, group);
    RecordsMove(b, GroupOf(b, group), now);
    hide GroupOf, RevertedRecords, OnlyBalances;
  }

  /** Taking a transfer back removes exactly the rows of its group. */
  lemma RevertPairStores(b: Books, group: string, now: string)
    requires KeysBelow(b) && RevertedPair(b, group, now).Success?
    ensures var after := RevertedPair(b, group, now).value;
            && after.transactions == Others(b.transactions, group)
            && OnlyBalances(b, after, AccountsOf(b, GroupOf(b, group)), now)
  {
    hide RevertedRecords, GroupOf, OnlyBalances;
    GroupGoes(b, group, now);
  }

  /** The creation time of the first leg of this direction, if the group has one. */
  ghost predicate IsCreation(b: Books, group: string, direction: Direction, now: string, created: string) {
    var ids := GroupOf(b, group);
    if forall i :: 0 <= i < |ids| ==> b.transactions[ids[i]].transferDirection != Some(direction) then created == now
    else
      exists i :: 0 <= i < |ids| && b.transactions[ids[i]].transferDirection == Some(direction)
                  && b.transactions[ids[i]].createdAt == created
                  && forall j :: 0 <= j < i ==> b.transactions[ids[j]].transferDirection != Some(direction)
  }

  lemma {:induction false} CreationIs(b: Books, ids: seq<Key>, direction: Direction, now: string)
    returns (i: nat)
    requires forall i :: 0 <= i < |ids| ==> ids[i] in b.transactions
    ensures i < |ids| ==>
              && b.transactions[ids[i]].transferDirection == Some(direction)
              && CreationOf(b.transactions, ids, direction, now) == b.transactions[ids[i]].createdAt
    ensures i <= |ids| && forall j :: 0 <= j < i ==> b.transactions[ids[j]].transferDirection != Some(direction)
  {
    i := 0;
    while i < |ids| && b.transactions[ids[i]].transferDirection != Some(direction)
      invariant i <= |ids|
      invariant forall j :: 0 <= j < i ==> b.transactions[ids[j]].transferDirection != Some(direction)
    {
      i := i + 1;
    }
  }

  lemma CreationOfGroup(b: Books, group: string, direction: Direction, now: string)
    ensures IsCreation(b, group, direction, now, CreationOf(b.transactions, GroupOf(b, group), direction, now))
  {
    hide GroupOf;
    var ids := GroupOf(b, group);
    var i := CreationIs(b, ids, direction, now);
    if i < |ids| { assert b.transactions[ids[i]].transferDirection == Some(direction); }
  }

  /** An edited transfer: the rows of the group are gone, both new legs are stored, each
      with the creation time of the leg of its direction. */
  lemma ReplacePairStores(b: Books, group: string, outTx: Draft, inTx: Draft, now: string)
    requires KeysBelow(b) && ReplacedPair(b, group, outTx, inTx, now).Success?
    ensures var (after, outId, inId) := ReplacedPair(b, group, outTx, inTx, now).value;
            exists outCreated, inCreated ::
              && IsCreation(b, group, OutLeg, now, outCreated) && IsCreation(b, group, InLeg, now, inCreated)
              && LegsStored(Others(b.transactions, group), outTx.tx, inTx.tx, outCreated, inCreated, now,
                            after.transactions, outId, inId)
              && OnlyBalances(b, after,
                   AccountsOf(b, GroupOf(b, group)) + {outTx.tx.accountId, inTx.tx.accountId}, now)
  {
    hide RevertedRecords, GroupOf, PostedPair, CreationOf, IsCreation, LegsStored, OnlyBalances, AccountsOf, KeysBelow;
    var ids := GroupOf(b, group);
    var mid := RevertedRecords(b, ids, now).value;
    var outCreated := CreationOf(b.transactions, ids, OutLeg, now);
    var inCreated := CreationOf(b.transactions, ids, InLeg, now);
    GroupGoes(b, group, now);
    CreationOfGroup(b, group, OutLeg, now);
    CreationOfGroup(b, group, InLeg, now);
    PairStores(mid, outTx, inTx, outCreated, inCreated, now);
    MovesCompose(b, mid, PostedPair(mid, outTx, inTx, outCreated, inCreated, now).value.0, AccountsOf(b, ids),
                 {outTx.tx.accountId, inTx.tx.accountId}, now);
  }

  // ---- when an operation goes through ----

  /** The account exists and is not archived. */
  predicate IsOpen(b: Books, a: Key) {
    a in b.accounts && !b.accounts[a].isTrashed
  }

  ghost predicate AllOpen(b: Books, group: string) {
    forall k :: k in b.transactions && b.transactions[k].transferGroupId == Some(group) ==>
      IsOpen(b, b.transactions[k].accountId)
  }

  /** No row, among the given ones or the OUT leg's, has the keys asked for. */
  predicate LegsFit(txs: map<Key, Transaction>, nextId: nat, outTx: Draft, inTx: Draft) {
    && (outTx.id.Some? ==> outTx.id.value !in txs)
    && (inTx.id.Some? ==>
          inTx.id.value !in txs && inTx.id.value != if outTx.id.Some? then outTx.id.value else nextId)
  }

  /** What each operation asks of the tables and of its caller. */
  ghost predicate GoesThrough(b: Books, op: Operation) {
    match op
    case Apply(d) => IsOpen(b, d.tx.accountId) && (d.id.Some? ==> d.id.value !in b.transactions)
    case Revert(d) => IsOpen(b, d.tx.accountId) && d.id.Some?
    case Replace(d, tx) => IsOpen(b, d.tx.accountId) && IsOpen(b, tx.accountId)
    case ApplyPair(outTx, inTx) =>
      && outTx.tx.transferGroupId == inTx.tx.transferGroupId
      && IsOpen(b, outTx.tx.accountId) && IsOpen(b, inTx.tx.accountId)
      && LegsFit(b.transactions, b.nextId, outTx, inTx)
    case RevertPair(group) => |GroupOf(b, group)| > 0 && AllOpen(b, group)
    case ReplacePair(group, outTx, inTx) =>
      && |GroupOf(b, group)| == 2 && AllOpen(b, group)
      && IsOpen(b, outTx.tx.accountId) && IsOpen(b, inTx.tx.accountId)
      && LegsFit(Others(b.transactions, group), b.nextId, outTx, inTx)
    case Adjust(a, _) => IsOpen(b, a)
    case Elsewhere => true
  }

  lemma MovesKeepOpen(b: Books, after: Books, named: set<Key>, now: string, a: Key)
    requires OnlyBalances(b, after, named, now)
    ensures IsOpen(after, a) <==> IsOpen(b, a)
  {
  }

  lemma {:induction false} RecordsGoIff(b: Books, ids: seq<Key>, now: string)
    requires forall i :: 0 <= i < |ids| ==> ids[i] in b.transactions
    ensures RevertedRecords(b, ids, now).Success? <==>
            forall i :: 0 <= i < |ids| ==> IsOpen(b, b.transactions[ids[i]].accountId)
  {
    if ids != [] {
      var front, k := ids[..|ids| - 1], ids[|ids| - 1];
      RecordsGoIff(b, front, now);
      assert forall i :: 0 <= i < |front| ==> front[i] == ids[i];
      if RevertedRecords(b, front, now).Success? {
        RecordsMove(b, front, now);
        MovesKeepOpen(b, RevertedRecords(b, front, now).value, AccountsOf(b, front), now, b.transactions[k].accountId);
        RecordGoesIff(b, front, k, now);
      }
      hide IsOpen, OnlyBalances, AccountsOf;
    }
  }

  lemma RecordGoesIff(b: Books, front: seq<Key>, k: Key, now: string)
    requires k in b.transactions && forall i :: 0 <= i < |front| ==> front[i] in b.transactions
    requires RevertedRecords(b, front, now).Success?
    ensures RevertedRecord(RevertedRecords(b, front, now).value, k, b.transactions[k], now).Success? <==>
            IsOpen(RevertedRecords(b, front, now).value, b.transactions[k].accountId)
  {
    hide RevertedRecords;
  }

  lemma GroupGoesIff(b: Books, group: string, now: string)
    requires KeysBelow(b)
    ensures RevertedRecords(b, GroupOf(b, group), now).Success? <==> AllOpen(b, group)
  {
    hide GroupOf, RevertedRecords, IsOpen, KeysBelow;
    var ids := GroupOf(b, group);
    RecordsGoIff(b, ids, now);
    GroupIs(b, group);
    forall k | k in b.transactions && b.transactions[k].transferGroupId == Some(group)
      ensures exists i :: 0 <= i < |ids| && ids[i] == k
    {
      assert k in Elements(ids);
    }
    forall i | 0 <= i < |ids| ensures b.transactions[ids[i]].transferGroupId == Some(group) {
      assert ids[i] in Elements(ids);
    }
  }

  lemma PairGoesIff(b: Books, outTx: Draft, inTx: Draft, outCreated: string, inCreated: string, now: string)
    requires KeysBelow(b)
    ensures PostedPair(b, outTx, inTx, outCreated, inCreated, now).Success? <==>
            && IsOpen(b, outTx.tx.accountId) && IsOpen(b, inTx.tx.accountId)
            && LegsFit(b.transactions, b.nextId, outTx, inTx)
  {
    hide BalanceDelta, First;
    if BalancedPair(b, outTx.tx, inTx.tx, now).Success? { BalancedMoves(b, outTx.tx, inTx.tx, now); }
  }

  lemma ReplacePairGoesIff(b: Books, group: string, outTx: Draft, inTx: Draft, now: string)
    requires KeysBelow(b)
    ensures ReplacedPair(b, group, outTx, inTx, now).Success? <==> GoesThrough(b, ReplacePair(group, outTx, inTx))
  {
    hide GroupOf, RevertedRecords, PostedPair, CreationOf, AllOpen, LegsFit;
    hide OnlyBalances, AccountsOf, KeysBelow, Others;
    var ids := GroupOf(b, group);
    GroupGoesIff(b, group, now);
    if RevertedRecords(b, ids, now).Success? {
      GroupGoes(b, group, now);
      var mid := RevertedRecords(b, ids, now).value;
      MovesKeepOpen(b, mid, AccountsOf(b, ids), now, outTx.tx.accountId);
      MovesKeepOpen(b, mid, AccountsOf(b, ids), now, inTx.tx.accountId);
      hide IsOpen;
      PairGoesIff(mid, outTx, inTx, CreationOf(b.transactions, ids, OutLeg, now),
                  CreationOf(b.transactions, ids, InLeg, now), now);
    }
  }

  /** An operation goes through exactly if every account it needs exists and is not
      archived, every key asked for is free, and its group has the legs it needs. */
  lemma SucceedsIff(b: Books, op: Operation, now: string)
    requires KeysBelow(b)
    ensures Succeeds(b, op, now) <==> GoesThrough(b, op)
  {
    match op
    case Apply(d) => hide BalanceDelta, First;
    case Revert(d) => hide BalanceDelta;
    case Replace(d, tx) => hide BalanceDelta, Edited;
    case ApplyPair(outTx, inTx) => hide PostedPair; PairGoesIff(b, outTx, inTx, now, now, now);
    case RevertPair(group) => hide RevertedRecords, GroupOf, AllOpen; GroupGoesIff(b, group, now);
    case ReplacePair(group, outTx, inTx) => hide ReplacedPair; ReplacePairGoesIff(b, group, outTx, inTx, now);
    case Adjust(a, newBalance) =>
    case Elsewhere =>
  }

  // ---- what a failure says ----

  function ErrorOf(b: Books, op: Operation, now: string): Option<LedgerError> {
    match op
    case Apply(d) => var r := Applied(b, d, now); if r.Failure? then Some(r.error) else None
    case Revert(d) => var r := Reverted(b, d, now); if r.Failure? then Some(r.error) else None
    case Replace(d, tx) => var r := Replaced(b, d, tx, now); if r.Failure? then Some(r.error) else None
    case ApplyPair(outTx, inTx) => var r := AppliedPair(b, outTx, inTx, now); if r.Failure? then Some(r.error) else None
    case RevertPair(group) => var r := RevertedPair(b, group, now); if r.Failure? then Some(r.error) else None
    case ReplacePair(group, outTx, inTx) =>
      var r := ReplacedPair(b, group, outTx, inTx, now); if r.Failure? then Some(r.error) else None
    case Adjust(a, newBalance) => var r := Adjusted(b, a, newBalance, now); if r.Failure? then Some(r.error) else None
    case Elsewhere => None
  }

  /** The accounts an operation needs. */
  ghost function Needed(b: Books, op: Operation): set<Key> {
    match op
    case Apply(d) => {d.tx.accountId}
    case Revert(d) => {d.tx.accountId}
    case Replace(d, tx) => {d.tx.accountId, tx.accountId}
    case ApplyPair(outTx, inTx) => {outTx.tx.accountId, inTx.tx.accountId}
    case RevertPair(group) => AccountsOf(b, GroupOf(b, group))
    case ReplacePair(group, outTx, inTx) => AccountsOf(b, GroupOf(b, group)) + {outTx.tx.accountId, inTx.tx.accountId}
    case Adjust(a, _) => {a}
    case Elsewhere => {}
  }

  /** The keys asked for are free. */
  predicate KeysFit(b: Books, op: Operation) {
    match op
    case Apply(d) => d.id.Some? ==> d.id.value !in b.transactions
    case ApplyPair(outTx, inTx) => LegsFit(b.transactions, b.nextId, outTx, inTx)
    case ReplacePair(group, outTx, inTx) => LegsFit(Others(b.transactions, group), b.nextId, outTx, inTx)
    case _ => true
  }

  ghost predicate IsTrue(b: Books, op: Operation, e: LedgerError) {
    match e
    case AccountNotFound(a) => a in Needed(b, op) && a !in b.accounts
    case AccountArchived => exists a :: a in Needed(b, op) && a in b.accounts && b.accounts[a].isTrashed
    case GroupMismatch => op.ApplyPair? && op.outTx.tx.transferGroupId != op.inTx.tx.transferGroupId
    case WrongLegCount(n) =>
      (op.RevertPair? || op.ReplacePair?) && n == |GroupOf(b, op.group)| && (if op.RevertPair? then n == 0 else n != 2)
    case KeyTaken => !KeysFit(b, op)
    case InvalidKey => op.Revert? && op.draft.id.None?
  }

  lemma {:induction false} RecordsErrorIsTrue(b: Books, ids: seq<Key>, now: string)
    requires forall i :: 0 <= i < |ids| ==> ids[i] in b.transactions
    requires RevertedRecords(b, ids, now).Failure?
    ensures match RevertedRecords(b, ids, now).error
            case AccountNotFound(a) => a in AccountsOf(b, ids) && a !in b.accounts
            case AccountArchived => exists a :: a in AccountsOf(b, ids) && a in b.accounts && b.accounts[a].isTrashed
            case _ => false
  {
    var front, k := ids[..|ids| - 1], ids[|ids| - 1];
    assert ids == front + [k];
    AccountsSnoc(b, front, k);
    hide AccountsOf;
    if RevertedRecords(b, front, now).Failure? {
      RecordsErrorIsTrue(b, front, now);
    } else {
      RecordsMove(b, front, now);
      RecordError(b, RevertedRecords(b, front, now).value, AccountsOf(b, front), k, now);
    }
  }

  lemma RecordError(b: Books, mid: Books, named: set<Key>, k: Key, now: string)
    requires k in b.transactions && OnlyBalances(b, mid, named, now)
    requires RevertedRecord(mid, k, b.transactions[k], now).Failure?
    ensures var a := b.transactions[k].accountId;
            match RevertedRecord(mid, k, b.transactions[k], now).error
            case AccountNotFound(missing) => missing == a && a !in b.accounts
            case AccountArchived => a in b.accounts && b.accounts[a].isTrashed
            case _ => false
  {
  }

  lemma PairErrorIsTrue(b: Books, mid: Books, named: set<Key>, outTx: Draft, inTx: Draft, outCreated: string,
                        inCreated: string, now: string)
    requires KeysBelow(mid) && OnlyBalances(b, mid, named, now)
    requires PostedPair(mid, outTx, inTx, outCreated, inCreated, now).Failure?
    ensures match PostedPair(mid, outTx, inTx, outCreated, inCreated, now).error
            case AccountNotFound(a) => a in {outTx.tx.accountId, inTx.tx.accountId} && a !in b.accounts
            case AccountArchived =>
              exists a :: a in {outTx.tx.accountId, inTx.tx.accountId} && a in b.accounts && b.accounts[a].isTrashed
            case KeyTaken => !LegsFit(mid.transactions, mid.nextId, outTx, inTx)
            case _ => false
  {
    if BalancedPair(mid, outTx.tx, inTx.tx, now).Success? {
      PairGoesIff(mid, outTx, inTx, outCreated, inCreated, now);
      hide BalanceDelta, First, LegsFit;
    } else {
      hide AddedPair, BalanceDelta;
      assert BalancedPair(mid, outTx.tx, inTx.tx, now).error.AccountArchived? ==>
               (outTx.tx.accountId in b.accounts && b.accounts[outTx.tx.accountId].isTrashed)
               || (inTx.tx.accountId in b.accounts && b.accounts[inTx.tx.accountId].isTrashed);
    }
  }

  lemma NothingMoves(b: Books, now: string)
    ensures OnlyBalances(b, b, {}, now)
  {
  }

  lemma ReplacePairErrorIsTrue(b: Books, group: string, outTx: Draft, inTx: Draft, now: string)
    requires KeysBelow(b) && ReplacedPair(b, group, outTx, inTx, now).Failure?
    ensures IsTrue(b, ReplacePair(group, outTx, inTx), ReplacedPair(b, group, outTx, inTx, now).error)
  {
    hide GroupOf, RevertedRecords, PostedPair, CreationOf, LegsFit, OnlyBalances, AccountsOf, KeysBelow, Others;
    var ids := GroupOf(b, group);
    if |ids| == 2 {
      if RevertedRecords(b, ids, now).Failure? {
        RecordsErrorIsTrue(b, ids, now);
      } else {
        GroupGoes(b, group, now);
        PairErrorIsTrue(b, RevertedRecords(b, ids, now).value, AccountsOf(b, ids), outTx, inTx,
                        CreationOf(b.transactions, ids, OutLeg, now), CreationOf(b.transactions, ids, InLeg, now), now);
      }
    }
  }

  /** A failure says what is really the matter: the account it names is missing, an
      account needed is archived, the group ids differ, the group has the number of legs
      it says, a key is taken or missing. */
  lemma ErrorIsTrue(b: Books, op: Operation, now: string)
    requires KeysBelow(b) && ErrorOf(b, op, now).Some?
    ensures IsTrue(b, op, ErrorOf(b, op, now).value)
  {
    match op
    case Apply(d) => hide BalanceDelta, First;
    case Revert(d) => hide BalanceDelta;
    case Replace(d, tx) => hide BalanceDelta, Edited;
    case ApplyPair(outTx, inTx) =>
      hide PostedPair, LegsFit, OnlyBalances, KeysBelow;
      NothingMoves(b, now);
      if outTx.tx.transferGroupId == inTx.tx.transferGroupId {
        PairErrorIsTrue(b, b, {}, outTx, inTx, now, now, now);
      }
    case RevertPair(group) =>
      hide RevertedRecords, GroupOf, AccountsOf, KeysBelow;
      if |GroupOf(b, group)| > 0 { RecordsErrorIsTrue(b, GroupOf(b, group), now); }
    case ReplacePair(group, outTx, inTx) =>
      hide ReplacedPair, Needed;
      ReplacePairErrorIsTrue(b, group, outTx, inTx, now);
    case Adjust(a, newBalance) =>
  }
}
