/** What the incremental balances mean: sums over the stored transactions. */
module LedgerLaws {
  import opened Wrappers
  import opened Sequences
  import opened Ledgers

  type Kinds = map<Key, AccountType>

  /** One account's balance, or the family's net worth. */
  datatype Weight = Single(account: Key) | NetWorth

  /** What one transaction contributes to a sum. */
  datatype Measure =
    | Weighted(weight: Weight, kinds: Kinds)
    | Incomes
    | Expenses
    | Gap
    | Interest(kinds: Kinds)
    | Rows
    | InGroup(group: string, of: Measure)

  /** The share of an amount posted to account `a`. */
  function Share(w: Weight, a: Key, kind: AccountType, v: int): int {
    match w
    case Single(account) => if a == account then v else 0
    case NetWorth => if kind.Debt? then -v else v
  }

  function Value(m: Measure, tx: Transaction): int
    decreases m
  {
    match m
    case Weighted(w, kinds) =>
      if tx.accountId !in kinds then 0
      else Share(w, tx.accountId, kinds[tx.accountId], BalanceDelta(kinds[tx.accountId], tx))
    case Incomes => if tx.kind.Income? then tx.amount else 0
    case Expenses => if tx.kind.Expense? then tx.amount else 0
    case Gap =>
      if !tx.kind.Transfer? then 0 else if tx.transferDirection == Some(InLeg) then tx.amount else -tx.amount
    case Interest(kinds) =>
      if tx.kind.Transfer? && tx.transferDirection == Some(InLeg) && tx.principalAmount.Some?
         && tx.accountId in kinds && kinds[tx.accountId].Debt?
      then tx.amount - tx.principalAmount.value else 0
    case Rows => 1
    case InGroup(group, of) => if tx.transferGroupId == Some(group) then Value(of, tx) else 0
  }

  function ValueAt(txs: map<Key, Transaction>, m: Measure, k: Key): int {
    if k in txs then Value(m, txs[k]) else 0
  }

  function SumBelow(txs: map<Key, Transaction>, m: Measure, n: nat): int {
    if n == 0 then 0 else SumBelow(txs, m, n - 1) + ValueAt(txs, m, n - 1)
  }

  function Total(b: Books, m: Measure): int {
    SumBelow(b.transactions, m, b.nextId)
  }

  ghost predicate KeysBelow(b: Books) {
    forall k :: k in b.transactions ==> k < b.nextId
  }

  // ---- sums over rows ----

  lemma {:induction false} SumPut(txs: map<Key, Transaction>, k: Key, tx: Transaction, m: Measure, n: nat)
    ensures SumBelow(txs[k := tx], m, n) == SumBelow(txs, m, n) + if k < n then Value(m, tx) - ValueAt(txs, m, k) else 0
  {
    if n > 0 { SumPut(txs, k, tx, m, n - 1); }
  }

  lemma {:induction false} SumDelete(txs: map<Key, Transaction>, k: Key, m: Measure, n: nat)
    ensures SumBelow(txs - {k}, m, n) == SumBelow(txs, m, n) - if k < n then ValueAt(txs, m, k) else 0
  {
    if n > 0 { SumDelete(txs, k, m, n - 1); }
  }

  lemma {:induction false} SumBeyond(txs: map<Key, Transaction>, m: Measure, n: nat, more: nat)
    requires n <= more && forall k :: k in txs ==> k < n
    ensures SumBelow(txs, m, more) == SumBelow(txs, m, n)
  {
    if n < more { SumBeyond(txs, m, n, more - 1); }
  }

  function StoredValue(b: Books, m: Measure, id: Option<Key>): int {
    if id.Some? then ValueAt(b.transactions, m, id.value) else 0
  }

  lemma PutTotal(b: Books, id: Option<Key>, tx: Transaction, m: Measure)
    requires KeysBelow(b)
    ensures var (after, k) := PutRow(b, id, tx);
            && KeysBelow(after) && after.accounts == b.accounts
            && Total(after, m) == Total(b, m) + Value(m, tx) - StoredValue(b, m, id)
  {
    var (after, k) := PutRow(b, id, tx);
    SumPut(b.transactions, k, tx, m, after.nextId);
    SumBeyond(b.transactions, m, b.nextId, after.nextId);
  }

  lemma AddTotal(b: Books, id: Option<Key>, tx: Transaction, m: Measure)
    requires KeysBelow(b) && AddRow(b, id, tx).Success?
    ensures var (after, k) := AddRow(b, id, tx).value;
            && KeysBelow(after) && after.accounts == b.accounts
            && Total(after, m) == Total(b, m) + Value(m, tx)
  {
    PutTotal(b, id, tx, m);
  }

  lemma DeleteTotal(b: Books, k: Key, m: Measure)
    requires KeysBelow(b)
    ensures KeysBelow(DeleteRow(b, k)) && DeleteRow(b, k).accounts == b.accounts
    ensures Total(DeleteRow(b, k), m) == Total(b, m) - ValueAt(b.transactions, m, k)
  {
    SumDelete(b.transactions, k, m, b.nextId);
  }

  /** The columns the service fills in itself do not matter. */
  lemma {:induction false} ValueIgnoresStamps(m: Measure, tx: Transaction, order: int, created: string, now: string)
    ensures Value(m, tx.(displayOrder := order, createdAt := created, updatedAt := now)) == Value(m, tx)
    decreases m
  {
    if m.InGroup? { ValueIgnoresStamps(m.of, tx, order, created, now); }
  }

  // ---- display orders ----

  lemma {:induction false} MinOrderIsLeast(txs: map<Key, Transaction>, date: string, n: nat)
    ensures var m := MinOrderBelow(txs, date, n);
            && (m.None? <==> forall k :: k in txs && k < n ==> txs[k].date != date)
            && (m.Some? ==>
                  && (forall k :: k in txs && k < n && txs[k].date == date ==> m.value <= txs[k].displayOrder)
                  && exists k :: k in txs && k < n && txs[k].date == date && txs[k].displayOrder == m.value)
  {
    if n > 0 { MinOrderIsLeast(txs, date, n - 1); }
  }

  /** Row `id` stands before every other row of its day. */
  ghost predicate IsFirstOfDay(b: Books, id: Key) {
    && id in b.transactions
    && forall k :: k in b.transactions && k != id && b.transactions[k].date == b.transactions[id].date ==>
         b.transactions[id].displayOrder < b.transactions[k].displayOrder
  }

  /** An edited row keeps its key and creation time; it keeps its place in the day, or
      comes first in its new one. */
  lemma EditedRowPlace(b: Books, prior: Draft, tx: Transaction, now: string)
    requires KeysBelow(b) && Replaced(b, prior, tx, now).Success?
    ensures var (after, id) := Replaced(b, prior, tx, now).value;
            && id in after.transactions && (prior.id.Some? ==> id == prior.id.value)
            && after.transactions[id].createdAt == prior.tx.createdAt
            && (tx.date == prior.tx.date ==> after.transactions[id].displayOrder == prior.tx.displayOrder)
            && (tx.date != prior.tx.date ==> IsFirstOfDay(after, id))
  {
    RepostKeepsRows(b, prior.tx, tx, now);
    MinOrderIsLeast(b.transactions, tx.date, b.nextId);
    hide Reposted;
  }

  lemma AddedRowIsFirst(b: Books, id: Option<Key>, tx: Transaction, created: string, now: string)
    requires KeysBelow(b) && AddRow(b, id, First(b, tx, created, now)).Success?
    ensures var (after, k) := AddRow(b, id, First(b, tx, created, now)).value;
            && KeysBelow(after) && IsFirstOfDay(after, k) && after.transactions[k].date == tx.date
            && k !in b.transactions && after.transactions == b.transactions[k := after.transactions[k]]
  {
    MinOrderIsLeast(b.transactions, tx.date, b.nextId);
  }

  /** A row just applied is new, and stands before every other row of its day. */
  lemma NewRowIsFirst(b: Books, d: Draft, now: string)
    requires KeysBelow(b) && Applied(b, d, now).Success?
    ensures var (after, id) := Applied(b, d, now).value;
            IsFirstOfDay(after, id) && id !in b.transactions && after.transactions[id].date == d.tx.date
  {
    hide BalanceDelta, First, AddRow, MinOrder;
    var posted := Post(b, d.tx.accountId, BalanceDelta(b.accounts[d.tx.accountId].kind, d.tx), now);
    FirstIgnoresAccounts(b, posted, d.tx, now);
    AddedRowIsFirst(posted, d.id, d.tx, now, now);
  }

  lemma FirstIgnoresAccounts(b: Books, posted: Books, tx: Transaction, now: string)
    requires posted.transactions == b.transactions && posted.nextId == b.nextId
    ensures First(posted, tx, now, now) == First(b, tx, now, now)
  {
  }

  /** The IN leg of a new transfer comes first in its day, the OUT leg right after it
      or first in its own. */
  lemma NewLegsPlace(b: Books, outTx: Draft, inTx: Draft, now: string)
    requires KeysBelow(b) && AppliedPair(b, outTx, inTx, now).Success?
    ensures var (after, outId, inId) := AppliedPair(b, outTx, inTx, now).value;
            && IsFirstOfDay(after, inId)
            && outId in after.transactions
            && forall k :: k in after.transactions && k != outId && k != inId
                           && after.transactions[k].date == outTx.tx.date ==>
                 after.transactions[outId].displayOrder < after.transactions[k].displayOrder
  {
    BalancedKeepsRows(b, outTx.tx, inTx.tx, now);
    var posted := BalancedPair(b, outTx.tx, inTx.tx, now).value;
    hide BalancedPair, First, AddRow, MinOrder;
    AddedRowIsFirst(posted, outTx.id, outTx.tx, now, now);
    var mid := AddRow(posted, outTx.id, First(posted, outTx.tx, now, now)).value.0;
    AddedRowIsFirst(mid, inTx.id, inTx.tx, now, now);
  }

  // ---- sums over accounts ----

  function BalancesBelow(accounts: map<Key, Account>, w: Weight, n: nat): int {
    if n == 0 then 0
    else
      BalancesBelow(accounts, w, n - 1)
      + if n - 1 in accounts then Share(w, n - 1, accounts[n - 1].kind, accounts[n - 1].balance) else 0
  }

  lemma {:induction false} BalancesPost(accounts: map<Key, Account>, a: Key, account: Account, w: Weight, n: nat)
    requires a in accounts && account.kind == accounts[a].kind
    ensures BalancesBelow(accounts[a := account], w, n)
         == BalancesBelow(accounts, w, n)
            + if a < n then Share(w, a, account.kind, account.balance - accounts[a].balance) else 0
  {
    if n > 0 { BalancesPost(accounts, a, account, w, n - 1); }
  }

  lemma {:induction false} SingleBalance(accounts: map<Key, Account>, a: Key, n: nat)
    ensures BalancesBelow(accounts, Single(a), n) == if a in accounts && a < n then accounts[a].balance else 0
  {
    if n > 0 { SingleBalance(accounts, a, n - 1); }
  }

  /** Account types never change; `kinds` knows them, and `n` bounds the account keys. */
  ghost predicate Fits(b: Books, kinds: Kinds, n: nat) {
    && KeysBelow(b)
    && forall a :: a in b.accounts ==> a < n && a in kinds && kinds[a] == b.accounts[a].kind
  }

  /** What the stored balances hold beyond the sum of the stored transactions. */
  function Potential(b: Books, w: Weight, kinds: Kinds, n: nat): int {
    BalancesBelow(b.accounts, w, n) - Total(b, Weighted(w, kinds))
  }

  /** The contribution of `tx` to the weighted sum. */
  function Effect(w: Weight, kinds: Kinds, tx: Transaction): int {
    Value(Weighted(w, kinds), tx)
  }

  lemma PostPotential(b: Books, a: Key, delta: int, now: string, w: Weight, kinds: Kinds, n: nat)
    requires Fits(b, kinds, n) && a in b.accounts
    ensures Fits(Post(b, a, delta, now), kinds, n)
    ensures Post(b, a, delta, now).accounts.Keys == b.accounts.Keys
    ensures Potential(Post(b, a, delta, now), w, kinds, n)
         == Potential(b, w, kinds, n) + Share(w, a, kinds[a], delta)
  {
    BalancesPost(b.accounts, a, Post(b, a, delta, now).accounts[a], w, n);
  }

  lemma FitsRows(b: Books, after: Books, kinds: Kinds, n: nat)
    requires Fits(b, kinds, n) && KeysBelow(after) && after.accounts == b.accounts
    ensures Fits(after, kinds, n)
  {
  }

  // ---- what each operation does to the sums ----

  /** A new transaction moves the balance by exactly what its row adds to the sum. */
  lemma ApplyKeeps(b: Books, d: Draft, now: string, w: Weight, kinds: Kinds, n: nat)
    requires Fits(b, kinds, n) && Applied(b, d, now).Success?
    ensures var after := Applied(b, d, now).value.0;
            Fits(after, kinds, n) && Potential(after, w, kinds, n) == Potential(b, w, kinds, n)
  {
    var a := d.tx.accountId;
    var delta := BalanceDelta(kinds[a], d.tx);
    var posted, row := Post(b, a, delta, now), First(b, d.tx, now, now);
    hide BalanceDelta, MinOrder;
    PostPotential(b, a, delta, now, w, kinds, n);
    AddTotal(posted, d.id, row, Weighted(w, kinds));
    ValueIgnoresStamps(Weighted(w, kinds), d.tx, row.displayOrder, now, now);
    FitsRows(posted, Applied(b, d, now).value.0, kinds, n);
  }

  lemma ShareNegated(w: Weight, a: Key, kind: AccountType, v: int)
    ensures Share(w, a, kind, -v) == -Share(w, a, kind, v)
  {
  }

  /** Taking a transaction back leaves the sums off by the difference between the row
      that was stored and the one the caller passed. */
  lemma RevertShifts(b: Books, d: Draft, now: string, w: Weight, kinds: Kinds, n: nat)
    requires Fits(b, kinds, n) && Reverted(b, d, now).Success?
    ensures var after := Reverted(b, d, now).value;
            && Fits(after, kinds, n)
            && Potential(after, w, kinds, n)
               == Potential(b, w, kinds, n) + StoredValue(b, Weighted(w, kinds), d.id) - Effect(w, kinds, d.tx)
  {
    var a := d.tx.accountId;
    var delta := BalanceDelta(kinds[a], d.tx);
    hide BalanceDelta;
    PostPotential(b, a, -delta, now, w, kinds, n);
    ShareNegated(w, a, kinds[a], delta);
    DeleteTotal(Post(b, a, -delta, now), d.id.value, Weighted(w, kinds));
    FitsRows(Post(b, a, -delta, now), Reverted(b, d, now).value, kinds, n);
  }

  lemma RepostShifts(b: Books, prior: Transaction, tx: Transaction, now: string, w: Weight, kinds: Kinds, n: nat)
    requires Fits(b, kinds, n) && Reposted(b, prior, tx, now).Success?
    ensures var posted := Reposted(b, prior, tx, now).value;
            && Fits(posted, kinds, n) && posted.transactions == b.transactions && posted.nextId == b.nextId
            && Potential(posted, w, kinds, n)
               == Potential(b, w, kinds, n) - Effect(w, kinds, prior) + Effect(w, kinds, tx)
  {
    hide BalanceDelta, Potential, Effect, Share, Reposted, Fits;
    RepostedIs(b, prior, tx, now, kinds, n);
    var oldDelta, delta := BalanceDelta(kinds[prior.accountId], prior), BalanceDelta(kinds[tx.accountId], tx);
    var mid := Post(b, prior.accountId, -oldDelta, now);
    PostPotential(b, prior.accountId, -oldDelta, now, w, kinds, n);
    ShareNegated(w, prior.accountId, kinds[prior.accountId], oldDelta);
    PostPotential(mid, tx.accountId, delta, now, w, kinds, n);
    EffectIsShare(w, kinds, prior);
    EffectIsShare(w, kinds, tx);
  }

  lemma RepostedIs(b: Books, prior: Transaction, tx: Transaction, now: string, kinds: Kinds, n: nat)
    requires Fits(b, kinds, n) && Reposted(b, prior, tx, now).Success?
    ensures prior.accountId in b.accounts && prior.accountId in kinds
    ensures var mid := Post(b, prior.accountId, -BalanceDelta(kinds[prior.accountId], prior), now);
            && tx.accountId in mid.accounts && tx.accountId in kinds
            && Reposted(b, prior, tx, now).value
               == Post(mid, tx.accountId, BalanceDelta(kinds[tx.accountId], tx), now)
  {
  }

  lemma EffectIsShare(w: Weight, kinds: Kinds, tx: Transaction)
    requires tx.accountId in kinds
    ensures Effect(w, kinds, tx) == Share(w, tx.accountId, kinds[tx.accountId], BalanceDelta(kinds[tx.accountId], tx))
  {
  }

  /** The same for an edit, within one account or across two. */
  lemma ReplaceShifts(b: Books, prior: Draft, tx: Transaction, now: string, w: Weight, kinds: Kinds, n: nat)
    requires Fits(b, kinds, n) && Replaced(b, prior, tx, now).Success?
    ensures var after := Replaced(b, prior, tx, now).value.0;
            && Fits(after, kinds, n)
            && Potential(after, w, kinds, n)
               == Potential(b, w, kinds, n) + StoredValue(b, Weighted(w, kinds), prior.id) - Effect(w, kinds, prior.tx)
  {
    var posted, row := Reposted(b, prior.tx, tx, now).value, Edited(b, prior, tx, now);
    RepostShifts(b, prior.tx, tx, now, w, kinds, n);
    hide Reposted, MinOrder;
    PutTotal(posted, prior.id, row, Weighted(w, kinds));
    ValueIgnoresStamps(Weighted(w, kinds), tx, row.displayOrder, prior.tx.createdAt, now);
    FitsRows(posted, Replaced(b, prior, tx, now).value.0, kinds, n);
  }

  lemma BalancedPairShifts(b: Books, outTx: Transaction, inTx: Transaction, now: string, w: Weight,
          kinds: Kinds, n: nat)
    requires Fits(b, kinds, n) && BalancedPair(b, outTx, inTx, now).Success?
    ensures var posted := BalancedPair(b, outTx, inTx, now).value;
            && Fits(posted, kinds, n) && posted.transactions == b.transactions && posted.nextId == b.nextId
            && Potential(posted, w, kinds, n)
               == Potential(b, w, kinds, n) + Effect(w, kinds, outTx) + Effect(w, kinds, inTx)
  {
    var outDelta, inDelta := BalanceDelta(kinds[outTx.accountId], outTx), BalanceDelta(kinds[inTx.accountId], inTx);
    hide BalanceDelta;
    PostPotential(b, outTx.accountId, outDelta, now, w, kinds, n);
    PostPotential(Post(b, outTx.accountId, outDelta, now), inTx.accountId, inDelta, now, w, kinds, n);
  }

  lemma AddedPairTotal(b: Books, outTx: Draft, inTx: Draft, outCreated: string, inCreated: string,
          now: string, m: Measure)
    requires KeysBelow(b) && AddedPair(b, outTx, inTx, outCreated, inCreated, now).Success?
    ensures var after := AddedPair(b, outTx, inTx, outCreated, inCreated, now).value.0;
            && KeysBelow(after) && after.accounts == b.accounts
            && Total(after, m) == Total(b, m) + Value(m, outTx.tx) + Value(m, inTx.tx)
  {
    hide MinOrder;
    var outRow := First(b, outTx.tx, outCreated, now);
    AddTotal(b, outTx.id, outRow, m);
    ValueIgnoresStamps(m, outTx.tx, outRow.displayOrder, outCreated, now);
    var mid := AddRow(b, outTx.id, outRow).value.0;
    var inRow := First(mid, inTx.tx, inCreated, now);
    AddTotal(mid, inTx.id, inRow, m);
    ValueIgnoresStamps(m, inTx.tx, inRow.displayOrder, inCreated, now);
  }

  /** Both legs of a transfer, also when they are of one account. */
  lemma PairKeeps(b: Books, outTx: Draft, inTx: Draft, outCreated: string, inCreated: string, now: string,
                  w: Weight, kinds: Kinds, n: nat)
    requires Fits(b, kinds, n) && PostedPair(b, outTx, inTx, outCreated, inCreated, now).Success?
    ensures var after := PostedPair(b, outTx, inTx, outCreated, inCreated, now).value.0;
            Fits(after, kinds, n) && Potential(after, w, kinds, n) == Potential(b, w, kinds, n)
  {
    var posted := BalancedPair(b, outTx.tx, inTx.tx, now).value;
    BalancedPairShifts(b, outTx.tx, inTx.tx, now, w, kinds, n);
    hide BalancedPair, AddedPair;
    AddedPairTotal(posted, outTx, inTx, outCreated, inCreated, now, Weighted(w, kinds));
    FitsRows(posted, PostedPair(b, outTx, inTx, outCreated, inCreated, now).value.0, kinds, n);
  }

  lemma {:induction false} RevertRecordsKeeps(b: Books, ids: seq<Key>, now: string, w: Weight, kinds: Kinds, n: nat)
    requires Fits(b, kinds, n)
    requires forall i :: 0 <= i < |ids| ==> ids[i] in b.transactions
    requires forall i, j :: 0 <= i < j < |ids| ==> ids[i] != ids[j]
    requires RevertedRecords(b, ids, now).Success?
    ensures var after := RevertedRecords(b, ids, now).value;
            Fits(after, kinds, n) && Potential(after, w, kinds, n) == Potential(b, w, kinds, n)
  {
    if ids != [] {
      var front, k := ids[..|ids| - 1], ids[|ids| - 1];
      RevertRecordsKeeps(b, front, now, w, kinds, n);
      RevertedRows(b, front, now);
      var mid, d := RevertedRecords(b, front, now).value, Draft(Some(k), b.transactions[k]);
      assert k !in Elements(front) && mid.transactions[k] == b.transactions[k];
      hide BalanceDelta, RevertedRecords;
      assert Reverted(mid, d, now) == RevertedRecord(mid, k, d.tx, now);
      RevertShifts(mid, d, now, w, kinds, n);
    }
  }

  // ---- a single operation, whichever it is ----

  datatype Operation =
    | Apply(draft: Draft)
    | Revert(draft: Draft)
    | Replace(draft: Draft, tx: Transaction)
    | ApplyPair(outTx: Draft, inTx: Draft)
    | RevertPair(group: string)
    | ReplacePair(group: string, outTx: Draft, inTx: Draft)
    | Adjust(account: Key, newBalance: int)
    | Elsewhere

  /** Accounts are opened, renamed and archived elsewhere. The balances that pulled
      transactions move are not part of this model. */
  ghost predicate Outside(b: Books, after: Books) {
    && after.transactions == b.transactions && after.nextId == b.nextId
    && forall a :: a in b.accounts ==>
         a in after.accounts && after.accounts[a].kind == b.accounts[a].kind
         && after.accounts[a].balance == b.accounts[a].balance
  }

  function Kept(b: Books, r: Result<(Books, Key, Key), LedgerError>): Books {
    if r.Success? then r.value.0 else b
  }

  ghost predicate Step(b: Books, op: Operation, now: string, after: Books) {
    match op
    case Apply(d) => after == (match Applied(b, d, now) case Success(r) => r.0 case Failure(_) => b)
    case Revert(d) => after == (match Reverted(b, d, now) case Success(r) => r case Failure(_) => b)
    case Replace(d, tx) => after == (match Replaced(b, d, tx, now) case Success(r) => r.0 case Failure(_) => b)
    case ApplyPair(outTx, inTx) => after == Kept(b, AppliedPair(b, outTx, inTx, now))
    case RevertPair(group) => after == (match RevertedPair(b, group, now) case Success(r) => r case Failure(_) => b)
    case ReplacePair(group, outTx, inTx) => after == Kept(b, ReplacedPair(b, group, outTx, inTx, now))
    case Adjust(a, newBalance) =>
      after == (match Adjusted(b, a, newBalance, now) case Success(r) => r case Failure(_) => b)
    case Elsewhere => Outside(b, after)
  }

  predicate Succeeds(b: Books, op: Operation, now: string) {
    match op
    case Apply(d) => Applied(b, d, now).Success?
    case Revert(d) => Reverted(b, d, now).Success?
    case Replace(d, tx) => Replaced(b, d, tx, now).Success?
    case ApplyPair(outTx, inTx) => AppliedPair(b, outTx, inTx, now).Success?
    case RevertPair(group) => RevertedPair(b, group, now).Success?
    case ReplacePair(group, outTx, inTx) => ReplacedPair(b, group, outTx, inTx, now).Success?
    case Adjust(a, newBalance) => Adjusted(b, a, newBalance, now).Success?
    case Elsewhere => true
  }

  /** The service's operations, dispatched: each takes exactly the step of its kind. */
  method Perform(l: Ledger, op: Operation, now: string)
    requires !op.Elsewhere?
    modifies l
    ensures Step(old(l.State()), op, now, l.State())
  {
    hide Applied, Reverted, Replaced, AppliedPair, RevertedPair, ReplacedPair, Adjusted, IsDiff;
    match op
    case Apply(d) => var _ := l.ApplyTransaction(d, now);
    case Revert(d) => var _ := l.RevertTransaction(d, now);
    case Replace(d, tx) => var _ := l.ReplaceTransaction(d, tx, now);
    case ApplyPair(outTx, inTx) => var _ := l.ApplyTransfer(outTx, inTx, now);
    case RevertPair(group) => var _ := l.RevertTransfer(group, now);
    case ReplacePair(group, outTx, inTx) => var _ := l.ReplaceTransfer(group, outTx, inTx, now);
    case Adjust(a, newBalance) => var _ := l.AdjustBalance(a, newBalance, now);
  }

  /** The caller of a single-row revert or edit passes a stored row. */
  ghost predicate PassesStored(b: Books, op: Operation) {
    op.Revert? || op.Replace? ==>
      op.draft.id.Some? && op.draft.id.value in b.transactions && b.transactions[op.draft.id.value] == op.draft.tx
  }

  /** Balances set by hand, and those accounts are opened with. */
  function ByHand(b: Books, op: Operation, after: Books, w: Weight, n: nat): int {
    if op.Adjust? || op.Elsewhere? then BalancesBelow(after.accounts, w, n) - BalancesBelow(b.accounts, w, n) else 0
  }

  /** Every operation but a manual change keeps the balances equal to the sums. */
  lemma StepKeeps(b: Books, op: Operation, now: string, after: Books, w: Weight, kinds: Kinds, n: nat)
    requires Fits(b, kinds, n) && Step(b, op, now, after) && PassesStored(b, op)
    requires op.Elsewhere? ==> Fits(after, kinds, n)
    ensures Fits(after, kinds, n)
    ensures Potential(after, w, kinds, n) == Potential(b, w, kinds, n) + ByHand(b, op, after, w, n)
  {
    hide Applied, Reverted, Replaced, PostedPair, RevertedRecords, Potential, Fits, Value, BalancesBelow;
    match op
    case Apply(d) => if Applied(b, d, now).Success? { ApplyKeeps(b, d, now, w, kinds, n); }
    case Revert(d) => if Reverted(b, d, now).Success? { RevertShifts(b, d, now, w, kinds, n); }
    case Replace(d, tx) => if Replaced(b, d, tx, now).Success? { ReplaceShifts(b, d, tx, now, w, kinds, n); }
    case ApplyPair(outTx, inTx) =>
      if AppliedPair(b, outTx, inTx, now).Success? { PairKeeps(b, outTx, inTx, now, now, now, w, kinds, n); }
    case RevertPair(group) =>
      if RevertedPair(b, group, now).Success? { RevertRecordsKeeps(b, GroupOf(b, group), now, w, kinds, n); }
    case ReplacePair(group, outTx, inTx) =>
      if ReplacedPair(b, group, outTx, inTx, now).Success? {
        ReplacePairKeeps(b, group, outTx, inTx, now, w, kinds, n);
      }
    case Adjust(a, newBalance) => AdjustShifts(b, a, newBalance, now, after, w, kinds, n);
    case Elsewhere => OutsideShifts(b, after, w, kinds, n);
  }

  lemma ReplacePairKeeps(b: Books, group: string, outTx: Draft, inTx: Draft, now: string,
          w: Weight, kinds: Kinds, n: nat)
    requires Fits(b, kinds, n) && ReplacedPair(b, group, outTx, inTx, now).Success?
    ensures var after := ReplacedPair(b, group, outTx, inTx, now).value.0;
            Fits(after, kinds, n) && Potential(after, w, kinds, n) == Potential(b, w, kinds, n)
  {
    hide PostedPair, RevertedRecords, Potential, Fits, CreationOf;
    var ids := GroupOf(b, group);
    RevertRecordsKeeps(b, ids, now, w, kinds, n);
    PairKeeps(RevertedRecords(b, ids, now).value, outTx, inTx, CreationOf(b.transactions, ids, OutLeg, now),
              CreationOf(b.transactions, ids, InLeg, now), now, w, kinds, n);
  }

  lemma AdjustShifts(b: Books, a: Key, newBalance: int, now: string, after: Books, w: Weight, kinds: Kinds, n: nat)
    requires Fits(b, kinds, n) && Step(b, Adjust(a, newBalance), now, after)
    ensures Fits(after, kinds, n)
    ensures Potential(after, w, kinds, n)
         == Potential(b, w, kinds, n) + BalancesBelow(after.accounts, w, n) - BalancesBelow(b.accounts, w, n)
  {
  }

  lemma OutsideShifts(b: Books, after: Books, w: Weight, kinds: Kinds, n: nat)
    requires Outside(b, after)
    ensures Potential(after, w, kinds, n)
         == Potential(b, w, kinds, n) + BalancesBelow(after.accounts, w, n) - BalancesBelow(b.accounts, w, n)
  {
  }

  // ---- whole runs ----

  datatype Event = Event(op: Operation, now: string)

  ghost predicate IsRun(es: seq<Event>, bs: seq<Books>) {
    && |bs| == |es| + 1
    && (forall i :: 0 <= i < |es| ==> Step(bs[i], es[i].op, es[i].now, bs[i + 1]))
    && (forall i :: 0 <= i < |es| ==> PassesStored(bs[i], es[i].op))
  }

  /** From empty tables; `kinds` and `n` know every account there ever is. */
  ghost predicate IsLife(es: seq<Event>, bs: seq<Books>, kinds: Kinds, n: nat) {
    && IsRun(es, bs)
    && bs[0] == Books(map[], map[], 1)
    && forall i :: 0 <= i < |bs| ==> Fits(bs[i], kinds, n)
  }

  ghost function SetByHand(es: seq<Event>, bs: seq<Books>, i: nat, w: Weight, n: nat): int
    requires |bs| == |es| + 1 && i <= |es|
  {
    if i == 0 then 0
    else SetByHand(es, bs, i - 1, w, n) + ByHand(bs[i - 1], es[i - 1].op, bs[i], w, n)
  }

  lemma {:induction false} NoBalances(w: Weight, n: nat)
    ensures BalancesBelow(map[], w, n) == 0
  {
    if n > 0 { NoBalances(w, n - 1); }
  }

  lemma {:induction false} LifeKeeps(es: seq<Event>, bs: seq<Books>, i: nat, w: Weight, kinds: Kinds, n: nat)
    requires IsLife(es, bs, kinds, n) && i <= |es|
    ensures Potential(bs[i], w, kinds, n) == SetByHand(es, bs, i, w, n)
  {
    if i == 0 {
      NoBalances(w, n);
      assert SumBelow(map[], Weighted(w, kinds), 0) == 0;
    } else {
      hide Step, Potential, Fits, PassesStored, ByHand;
      LifeKeeps(es, bs, i - 1, w, kinds, n);
      assert Step(bs[i - 1], es[i - 1].op, es[i - 1].now, bs[i]) && PassesStored(bs[i - 1], es[i - 1].op)
          && Fits(bs[i - 1], kinds, n) && Fits(bs[i], kinds, n);
      StepKeeps(bs[i - 1], es[i - 1].op, es[i - 1].now, bs[i], w, kinds, n);
    }
  }

  /** In every state of every run whose callers pass stored rows, each account's
      balance is what was set by hand (opening balance and manual adjustments) plus
      the effects of its stored transactions. */
  lemma BalanceIsDerived(es: seq<Event>, bs: seq<Books>, i: nat, a: Key, kinds: Kinds, n: nat)
    requires IsLife(es, bs, kinds, n) && i <= |es| && a in bs[i].accounts
    ensures bs[i].accounts[a].balance
         == SetByHand(es, bs, i, Single(a), n) + Total(bs[i], Weighted(Single(a), kinds))
  {
    LifeKeeps(es, bs, i, Single(a), kinds, n);
    SingleBalance(bs[i].accounts, a, n);
    assert Fits(bs[i], kinds, n);
  }

  // ---- callers that pass something else ----

  /** The row passed has the effect of the row stored under its key. */
  predicate SameEffect(b: Books, d: Draft, kinds: Kinds)
    requires d.tx.accountId in kinds
    requires d.id.Some? && d.id.value in b.transactions ==> b.transactions[d.id.value].accountId in kinds
  {
    var passed := BalanceDelta(kinds[d.tx.accountId], d.tx);
    if d.id.Some? && d.id.value in b.transactions then
      var row := b.transactions[d.id.value];
      var stored := BalanceDelta(kinds[row.accountId], row);
      if row.accountId == d.tx.accountId then passed == stored else passed == 0 == stored
    else passed == 0
  }

  ghost predicate AllBalancesDerived(b: Books, after: Books, kinds: Kinds, n: nat) {
    forall a :: a in kinds ==> Potential(after, Single(a), kinds, n) == Potential(b, Single(a), kinds, n)
  }

  lemma EffectDecides(b: Books, d: Draft, kinds: Kinds)
    requires d.tx.accountId in kinds
    requires d.id.Some? && d.id.value in b.transactions ==> b.transactions[d.id.value].accountId in kinds
    ensures SameEffect(b, d, kinds) <==>
            forall a :: a in kinds ==>
              StoredValue(b, Weighted(Single(a), kinds), d.id) == Effect(Single(a), kinds, d.tx)
  {
  }

  /** A revert by a caller with a stale copy keeps the balances derived exactly when
      the copy has the effect of the stored row. */
  lemma RevertKeepsIff(b: Books, d: Draft, now: string, kinds: Kinds, n: nat)
    requires Fits(b, kinds, n) && Reverted(b, d, now).Success?
    requires forall k :: k in b.transactions ==> b.transactions[k].accountId in kinds
    ensures d.tx.accountId in kinds
    ensures AllBalancesDerived(b, Reverted(b, d, now).value, kinds, n) <==> SameEffect(b, d, kinds)
  {
    hide Reverted, BalanceDelta, Potential, SameEffect, Value;
    RevertKnowsAccount(b, d, now);
    EffectDecides(b, d, kinds);
    forall a | a in kinds
      ensures Potential(Reverted(b, d, now).value, Single(a), kinds, n) == Potential(b, Single(a), kinds, n)
         <==> StoredValue(b, Weighted(Single(a), kinds), d.id) == Effect(Single(a), kinds, d.tx)
    {
      RevertShifts(b, d, now, Single(a), kinds, n);
    }
  }

  lemma RevertKnowsAccount(b: Books, d: Draft, now: string)
    requires Reverted(b, d, now).Success?
    ensures d.tx.accountId in b.accounts
  {
  }

  /** And so does an edit. */
  lemma ReplaceKeepsIff(b: Books, d: Draft, tx: Transaction, now: string, kinds: Kinds, n: nat)
    requires Fits(b, kinds, n) && Replaced(b, d, tx, now).Success?
    requires forall k :: k in b.transactions ==> b.transactions[k].accountId in kinds
    ensures d.tx.accountId in kinds
    ensures AllBalancesDerived(b, Replaced(b, d, tx, now).value.0, kinds, n) <==> SameEffect(b, d, kinds)
  {
    hide Replaced, BalanceDelta, Potential, SameEffect, Value;
    ReplaceKnowsAccount(b, d, tx, now);
    EffectDecides(b, d, kinds);
    forall a | a in kinds
      ensures Potential(Replaced(b, d, tx, now).value.0, Single(a), kinds, n) == Potential(b, Single(a), kinds, n)
         <==> StoredValue(b, Weighted(Single(a), kinds), d.id) == Effect(Single(a), kinds, d.tx)
    {
      ReplaceShifts(b, d, tx, now, Single(a), kinds, n);
    }
  }

  lemma ReplaceKnowsAccount(b: Books, d: Draft, tx: Transaction, now: string)
    requires Replaced(b, d, tx, now).Success?
    ensures d.tx.accountId in b.accounts
  {
  }
}
