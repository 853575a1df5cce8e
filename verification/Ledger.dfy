/** The stored-balance ledger (src/services/balance.service.ts): account balances are
    kept up to date by every operation on transactions, never recomputed. `Books` is
    the content of the two tables as a value; `Ledger` is the database that changes. */
module Ledgers {
  import opened Wrappers
  import opened Sequences

  type Key = nat

  datatype AccountType = Regular | Debt | Savings

  datatype TransactionType = Income | Expense | Transfer

  datatype Direction = OutLeg | InLeg

  /** `other` stands for the columns the ledger copies and never reads. */
  datatype Account = Account(kind: AccountType, balance: int, isTrashed: bool, updatedAt: string, other: string)

  datatype Transaction = Transaction(
    kind: TransactionType,
    date: string,
    displayOrder: int,
    accountId: Key,
    amount: int,
    principalAmount: Option<int>,
    transferGroupId: Option<string>,
    transferDirection: Option<Direction>,
    createdAt: string,
    updatedAt: string,
    other: string)

  /** A transaction as callers pass it: `id` is optional. */
  datatype Draft = Draft(id: Option<Key>, tx: Transaction)

  datatype Books = Books(accounts: map<Key, Account>, transactions: map<Key, Transaction>, nextId: nat)

  datatype LedgerError =
    | AccountNotFound(id: Key)
    | AccountArchived
    | GroupMismatch
    | WrongLegCount(found: nat)
    | KeyTaken
    | InvalidKey

  /** What an operation hands to sync after the commit. */
  datatype Handed = Handed(saved: map<Key, Transaction>, removed: set<Key>, accounts: map<Key, Account>)

  /** `getBalanceDelta` */
  function BalanceDelta(kind: AccountType, tx: Transaction): int {
    match tx.kind
    case Income => if kind.Debt? then -tx.amount else tx.amount
    case Expense => if kind.Debt? then tx.amount else -tx.amount
    case Transfer =>
      if tx.transferDirection == Some(InLeg) then
        if kind.Debt? then -(if tx.principalAmount.Some? then tx.principalAmount.value else tx.amount)
        else tx.amount
      else if kind.Debt? then tx.amount
      else -tx.amount
  }

  // ---- what single table operations do ----

  /** The account a balance may be posted to. */
  function Usable(b: Books, a: Key): Result<Account, LedgerError> {
    if a !in b.accounts then Failure(AccountNotFound(a))
    else if b.accounts[a].isTrashed then Failure(AccountArchived)
    else Success(b.accounts[a])
  }

  function SetBalance(b: Books, a: Key, balance: int, now: string): Books
    requires a in b.accounts
  {
    b.(accounts := b.accounts[a := b.accounts[a].(balance := balance, updatedAt := now)])
  }

  function Post(b: Books, a: Key, delta: int, now: string): Books
    requires a in b.accounts
  {
    SetBalance(b, a, b.accounts[a].balance + delta, now)
  }

  /** An inserted row without a key gets the next one; a higher explicit key moves the generator on. */
  function PutRow(b: Books, id: Option<Key>, tx: Transaction): (Books, Key) {
    var k := if id.Some? then id.value else b.nextId;
    (b.(transactions := b.transactions[k := tx], nextId := if k >= b.nextId then k + 1 else b.nextId), k)
  }

  function AddRow(b: Books, id: Option<Key>, tx: Transaction): Result<(Books, Key), LedgerError> {
    if id.Some? && id.value in b.transactions then Failure(KeyTaken) else Success(PutRow(b, id, tx))
  }

  function DeleteRow(b: Books, k: Key): Books {
    b.(transactions := b.transactions - {k})
  }

  function MinOrderBelow(txs: map<Key, Transaction>, date: string, n: nat): Option<int> {
    if n == 0 then None
    else
      var front := MinOrderBelow(txs, date, n - 1);
      if n - 1 in txs && txs[n - 1].date == date
         && (front.None? || txs[n - 1].displayOrder < front.value)
      then Some(txs[n - 1].displayOrder) else front
  }

  /** `getMinDisplayOrder` */
  function MinOrder(b: Books, date: string): int {
    var m := MinOrderBelow(b.transactions, date, b.nextId);
    if m.Some? then m.value else 1
  }

  /** The display order that puts a row before all others of its day. */
  function First(b: Books, tx: Transaction, createdAt: string, now: string): Transaction {
    tx.(displayOrder := MinOrder(b, tx.date) - 1, createdAt := createdAt, updatedAt := now)
  }

  // ---- the operations ----

  function Applied(b: Books, d: Draft, now: string): Result<(Books, Key), LedgerError> {
    match Usable(b, d.tx.accountId)
    case Failure(e) => Failure(e)
    case Success(account) =>
      AddRow(Post(b, d.tx.accountId, BalanceDelta(account.kind, d.tx), now), d.id, First(b, d.tx, now, now))
  }

  function Reverted(b: Books, d: Draft, now: string): Result<Books, LedgerError> {
    match Usable(b, d.tx.accountId)
    case Failure(e) => Failure(e)
    case Success(account) =>
      if d.id.None? then Failure(InvalidKey)
      else Success(DeleteRow(Post(b, d.tx.accountId, -BalanceDelta(account.kind, d.tx), now), d.id.value))
  }

  /** The row an edit leaves: moved to the top of its new day if the date changed. */
  function Edited(b: Books, prior: Draft, tx: Transaction, now: string): Transaction {
    tx.(displayOrder := if prior.tx.date != tx.date then MinOrder(b, tx.date) - 1 else prior.tx.displayOrder,
        createdAt := prior.tx.createdAt, updatedAt := now)
  }

  /** The balance of an edited transaction taken back and posted anew, maybe elsewhere. */
  function Reposted(b: Books, prior: Transaction, tx: Transaction, now: string): Result<Books, LedgerError> {
    match Usable(b, prior.accountId)
    case Failure(e) => Failure(e)
    case Success(oldAccount) =>
      var mid := Post(b, prior.accountId, -BalanceDelta(oldAccount.kind, prior), now);
      match Usable(mid, tx.accountId)
      case Failure(e) => Failure(e)
      case Success(newAccount) => Success(Post(mid, tx.accountId, BalanceDelta(newAccount.kind, tx), now))
  }

  function Replaced(b: Books, prior: Draft, tx: Transaction, now: string): Result<(Books, Key), LedgerError> {
    match Reposted(b, prior.tx, tx, now)
    case Failure(e) => Failure(e)
    case Success(posted) => Success(PutRow(posted, prior.id, Edited(b, prior, tx, now)))
  }

  /** The balances of both legs of a transfer. */
  function BalancedPair(b: Books, outTx: Transaction, inTx: Transaction, now: string): Result<Books, LedgerError> {
    match Usable(b, outTx.accountId)
    case Failure(e) => Failure(e)
    case Success(outAccount) =>
      match Usable(b, inTx.accountId)
      case Failure(e) => Failure(e)
      case Success(inAccount) =>
        Success(Post(Post(b, outTx.accountId, BalanceDelta(outAccount.kind, outTx), now),
                     inTx.accountId, BalanceDelta(inAccount.kind, inTx), now))
  }

  /** The rows of both legs: the OUT row first, so the IN row comes before it on the same day. */
  function AddedPair(b: Books, outTx: Draft, inTx: Draft, outCreated: string, inCreated: string, now: string)
    : Result<(Books, Key, Key), LedgerError>
  {
    match AddRow(b, outTx.id, First(b, outTx.tx, outCreated, now))
    case Failure(e) => Failure(e)
    case Success((mid, outId)) =>
      match AddRow(mid, inTx.id, First(mid, inTx.tx, inCreated, now))
      case Failure(e) => Failure(e)
      case Success((after, inId)) => Success((after, outId, inId))
  }

  function PostedPair(b: Books, outTx: Draft, inTx: Draft, outCreated: string, inCreated: string, now: string)
    : Result<(Books, Key, Key), LedgerError>
  {
    match BalancedPair(b, outTx.tx, inTx.tx, now)
    case Failure(e) => Failure(e)
    case Success(posted) => AddedPair(posted, outTx, inTx, outCreated, inCreated, now)
  }

  function AppliedPair(b: Books, outTx: Draft, inTx: Draft, now: string): Result<(Books, Key, Key), LedgerError> {
    if outTx.tx.transferGroupId != inTx.tx.transferGroupId then Failure(GroupMismatch)
    else PostedPair(b, outTx, inTx, now, now, now)
  }

  /** The keys of a transfer group, in order. */
  function GroupKeys(txs: map<Key, Transaction>, group: string, n: nat): (ids: seq<Key>)
    ensures forall i :: 0 <= i < |ids| ==> ids[i] < n && ids[i] in txs && txs[ids[i]].transferGroupId == Some(group)
    ensures forall i, j :: 0 <= i < j < |ids| ==> ids[i] < ids[j]
    ensures forall k :: k in txs && k < n && txs[k].transferGroupId == Some(group) ==> k in ids
  {
    if n == 0 then []
    else
      var front := GroupKeys(txs, group, n - 1);
      if n - 1 in txs && txs[n - 1].transferGroupId == Some(group) then front + [n - 1] else front
  }

  function RevertedRecord(b: Books, k: Key, record: Transaction, now: string): Result<Books, LedgerError> {
    match Usable(b, record.accountId)
    case Failure(e) => Failure(e)
    case Success(account) =>
      Success(DeleteRow(Post(b, record.accountId, -BalanceDelta(account.kind, record), now), k))
  }

  /** The records of a group, taken back one by one. */
  function RevertedRecords(b: Books, ids: seq<Key>, now: string): Result<Books, LedgerError>
    requires forall i :: 0 <= i < |ids| ==> ids[i] in b.transactions
  {
    if ids == [] then Success(b)
    else
      match RevertedRecords(b, ids[..|ids| - 1], now)
      case Failure(e) => Failure(e)
      case Success(mid) => RevertedRecord(mid, ids[|ids| - 1], b.transactions[ids[|ids| - 1]], now)
  }

  function GroupOf(b: Books, group: string): (ids: seq<Key>)
    ensures forall i :: 0 <= i < |ids| ==> ids[i] in b.transactions
  {
    GroupKeys(b.transactions, group, b.nextId)
  }

  function RevertedPair(b: Books, group: string, now: string): Result<Books, LedgerError> {
    var ids := GroupOf(b, group);
    if ids == [] then Failure(WrongLegCount(0)) else RevertedRecords(b, ids, now)
  }

  /** `records.find(...)?.createdAt ?? now` */
  function CreationOf(txs: map<Key, Transaction>, ids: seq<Key>, direction: Direction, now: string): (created: string)
    requires forall i :: 0 <= i < |ids| ==> ids[i] in txs
    ensures (forall i :: 0 <= i < |ids| ==> txs[ids[i]].transferDirection != Some(direction)) ==> created == now
    ensures forall i :: 0 <= i < |ids| && txs[ids[i]].transferDirection == Some(direction)
                        && (forall j :: 0 <= j < i ==> txs[ids[j]].transferDirection != Some(direction)) ==>
              created == txs[ids[i]].createdAt
  {
    if ids == [] then now
    else if txs[ids[0]].transferDirection == Some(direction) then txs[ids[0]].createdAt
    else CreationOf(txs, ids[1..], direction, now)
  }

  function ReplacedPair(b: Books, group: string, outTx: Draft, inTx: Draft, now: string)
    : Result<(Books, Key, Key), LedgerError>
  {
    var ids := GroupOf(b, group);
    if |ids| != 2 then Failure(WrongLegCount(|ids|))
    else
      match RevertedRecords(b, ids, now)
      case Failure(e) => Failure(e)
      case Success(mid) =>
        PostedPair(mid, outTx, inTx, CreationOf(b.transactions, ids, OutLeg, now),
                   CreationOf(b.transactions, ids, InLeg, now), now)
  }

  function Adjusted(b: Books, a: Key, newBalance: int, now: string): Result<Books, LedgerError> {
    match Usable(b, a)
    case Failure(e) => Failure(e)
    case Success(_) => Success(SetBalance(b, a, newBalance, now))
  }

  // ---- the transactions ----

  /** What is handed to sync is current, and covers every row that has changed. */
  ghost predicate IsDiff(h: Handed, b: Books, after: Books) {
    && (forall k :: k in h.saved ==> k in after.transactions && after.transactions[k] == h.saved[k])
    && (forall k :: k in h.removed && k !in h.saved ==> k !in after.transactions)
    && (forall a :: a in h.accounts ==> a in after.accounts && after.accounts[a] == h.accounts[a])
    && (forall k :: k in after.transactions && k !in h.saved ==>
          k in b.transactions && after.transactions[k] == b.transactions[k])
    && (forall k :: k in b.transactions && k !in after.transactions ==> k in h.removed)
    && after.accounts.Keys == b.accounts.Keys
    && (forall a :: a in b.accounts && a !in h.accounts ==> after.accounts[a] == b.accounts[a])
  }

  /** The accounts of a group's rows. */
  ghost function AccountsOf(b: Books, ids: seq<Key>): set<Key>
    requires forall i :: 0 <= i < |ids| ==> ids[i] in b.transactions
  {
    set i | 0 <= i < |ids| :: b.transactions[ids[i]].accountId
  }

  lemma AccountsSnoc(b: Books, front: seq<Key>, k: Key)
    requires k in b.transactions && forall i :: 0 <= i < |front| ==> front[i] in b.transactions
    ensures AccountsOf(b, front + [k]) == AccountsOf(b, front) + {b.transactions[k].accountId}
  {
    var ids := front + [k];
    assert ids[|front|] == k && forall i :: 0 <= i < |front| ==> ids[i] == front[i];
    forall a | a in AccountsOf(b, front) ensures a in AccountsOf(b, ids) {
      var i :| 0 <= i < |front| && b.transactions[front[i]].accountId == a;
      assert b.transactions[ids[i]].accountId == a;
    }
  }

  class Ledger {
    var accounts: map<Key, Account>
    var transactions: map<Key, Transaction>
    var nextId: nat

    function State(): Books
      reads this
    {
      Books(accounts, transactions, nextId)
    }

    constructor ()
      ensures State() == Books(map[], map[], 1)
    {
      accounts, transactions, nextId := map[], map[], 1;
    }

    method Rollback(begin: Books)
      modifies this
      ensures State() == begin
    {
      accounts, transactions, nextId := begin.accounts, begin.transactions, begin.nextId;
    }

    /** `db.accounts.update`: the listed columns only. */
    method UpdateAccount(id: Key, balance: int, updatedAt: string)
      requires id in accounts
      modifies this
      ensures State() == SetBalance(old(State()), id, balance, updatedAt)
    {
      accounts := accounts[id := accounts[id].(balance := balance, updatedAt := updatedAt)];
    }

    method Add(d: Draft) returns (id: Option<Key>)
      modifies this
      ensures match AddRow(old(State()), d.id, d.tx)
              case Failure(_) => id == None && State() == old(State())
              case Success((after, k)) => id == Some(k) && State() == after
    {
      if d.id.Some? && d.id.value in transactions { return None; }
      var k := if d.id.Some? then d.id.value else nextId;
      transactions := transactions[k := d.tx];
      if k >= nextId { nextId := k + 1; }
      return Some(k);
    }

    method Put(d: Draft) returns (id: Key)
      modifies this
      ensures (State(), id) == PutRow(old(State()), d.id, d.tx)
    {
      id := if d.id.Some? then d.id.value else nextId;
      transactions := transactions[id := d.tx];
      if id >= nextId { nextId := id + 1; }
    }

    method Delete(k: Key)
      modifies this
      ensures State() == DeleteRow(old(State()), k)
    {
      transactions := transactions - {k};
    }

    method GetMinDisplayOrder(date: string) returns (m: int)
      ensures m == MinOrder(State(), date)
    {
      var least: Option<int> := None;
      for k := 0 to nextId
        invariant least == MinOrderBelow(transactions, date, k)
      {
        if k in transactions && transactions[k].date == date {
          if least.None? || transactions[k].displayOrder < least.value { least := Some(transactions[k].displayOrder); }
        }
      }
      return if least.Some? then least.value else 1;
    }

    method ApplyTransaction(d: Draft, now: string) returns (r: Result<Handed, LedgerError>)
      modifies this
      ensures match Applied(old(State()), d, now)
              case Failure(e) => r == Failure(e) && State() == old(State())
              case Success((after, id)) => r.Success? && State() == after && r.value.saved.Keys == {id}
      ensures r.Success? ==> IsDiff(r.value, old(State()), State())
      ensures r.Success? ==> r.value.removed == {} && r.value.accounts.Keys == {d.tx.accountId}
    {
      var begin := State();
      var tx := d.tx;
      if tx.accountId !in accounts { return Failure(AccountNotFound(tx.accountId)); }
      var account := accounts[tx.accountId];
      if account.isTrashed { return Failure(AccountArchived); }
      var minOrder := GetMinDisplayOrder(tx.date);
      var newTx := tx.(displayOrder := minOrder - 1, createdAt := now, updatedAt := now);
      var delta := BalanceDelta(account.kind, tx);
      UpdateAccount(tx.accountId, account.balance + delta, now);
      var id := Add(Draft(d.id, newTx));
      if id.None? { Rollback(begin); return Failure(KeyTaken); }
      return Success(Handed(map[id.value := newTx], {},
                            map[tx.accountId := account.(balance := account.balance + delta, updatedAt := now)]));
    }

    method RevertTransaction(d: Draft, now: string) returns (r: Result<Handed, LedgerError>)
      modifies this
      ensures match Reverted(old(State()), d, now)
              case Failure(e) => r == Failure(e) && State() == old(State())
              case Success(after) => r.Success? && State() == after && d.id.Some? && r.value.removed == {d.id.value}
      ensures r.Success? ==> IsDiff(r.value, old(State()), State())
      ensures r.Success? ==> r.value.saved == map[] && r.value.accounts.Keys == {d.tx.accountId}
    {
      var begin := State();
      var tx := d.tx;
      if tx.accountId !in accounts { return Failure(AccountNotFound(tx.accountId)); }
      var account := accounts[tx.accountId];
      if account.isTrashed { return Failure(AccountArchived); }
      var delta := BalanceDelta(account.kind, tx);
      UpdateAccount(tx.accountId, account.balance - delta, now);
      if d.id.None? { Rollback(begin); return Failure(InvalidKey); }
      Delete(d.id.value);
      return Success(Handed(map[], {d.id.value},
                            map[tx.accountId := account.(balance := account.balance - delta, updatedAt := now)]));
    }

    /** The balances of an edit: one account or two. */
    method RepostBalance(o: Transaction, newTx: Transaction, now: string)
      returns (r: Result<map<Key, Account>, LedgerError>)
      modifies this
      ensures match Reposted(old(State()), o, newTx, now)
              case Failure(e) => r == Failure(e)
              case Success(posted) =>
                && r.Success? && State() == posted && AccountsCover(r.value, old(State()), posted)
                && r.value.Keys == {o.accountId, newTx.accountId}
    {
      ghost var b := State();
      if o.accountId !in accounts { return Failure(AccountNotFound(o.accountId)); }
      var oldAccount := accounts[o.accountId];
      if oldAccount.isTrashed { return Failure(AccountArchived); }
      var oldDelta := BalanceDelta(oldAccount.kind, o);
      var affected: map<Key, Account> := map[];
      if o.accountId != newTx.accountId {
        UpdateAccount(o.accountId, oldAccount.balance - oldDelta, now);
        affected := affected[o.accountId := oldAccount.(balance := oldAccount.balance - oldDelta, updatedAt := now)];
        if newTx.accountId !in accounts { return Failure(AccountNotFound(newTx.accountId)); }
        var newAccount := accounts[newTx.accountId];
        if newAccount.isTrashed { return Failure(AccountArchived); }
        var newDelta := BalanceDelta(newAccount.kind, newTx);
        UpdateAccount(newTx.accountId, newAccount.balance + newDelta, now);
        affected :=
          affected[newTx.accountId := newAccount.(balance := newAccount.balance + newDelta, updatedAt := now)];
      } else {
        var newDelta := BalanceDelta(oldAccount.kind, newTx);
        PostTwice(b, o.accountId, -oldDelta, newDelta, now);
        UpdateAccount(o.accountId, oldAccount.balance - oldDelta + newDelta, now);
        affected := affected[o.accountId :=
          oldAccount.(balance := oldAccount.balance - oldDelta + newDelta, updatedAt := now)];
      }
      return Success(affected);
    }

    method ReplaceTransaction(oldTx: Draft, newTx: Transaction, now: string) returns (r: Result<Handed, LedgerError>)
      modifies this
      ensures match Replaced(old(State()), oldTx, newTx, now)
              case Failure(e) => r == Failure(e) && State() == old(State())
              case Success((after, id)) => r.Success? && State() == after && r.value.saved.Keys == {id}
      ensures r.Success? ==> IsDiff(r.value, old(State()), State())
      ensures r.Success? ==> r.value.removed == {} && r.value.accounts.Keys == {oldTx.tx.accountId, newTx.accountId}
    {
      hide MinOrder, IsDiff, AccountsCover, BalanceDelta;
      var begin := State();
      var affected := RepostBalance(oldTx.tx, newTx, now);
      if affected.Failure? { Rollback(begin); return Failure(affected.error); }
      ghost var posted := State();
      RepostKeepsRows(begin, oldTx.tx, newTx, now);
      MinOrderIgnoresAccounts(posted, begin, newTx.date);
      var displayOrder := oldTx.tx.displayOrder;
      if oldTx.tx.date != newTx.date {
        var minOrder := GetMinDisplayOrder(newTx.date);
        displayOrder := minOrder - 1;
      }
      var updatedTx := newTx.(displayOrder := displayOrder, createdAt := oldTx.tx.createdAt, updatedAt := now);
      var id := Put(Draft(oldTx.id, updatedTx));
      PutDiff(begin, posted, oldTx.id, updatedTx, affected.value);
      return Success(Handed(map[id := updatedTx], {}, affected.value));
    }

    /** Both balances of a transfer; with one account for both legs, the second update
        starts from the first. */
    method PostBoth(cached: map<Key, Account>, outId: Key, outAccount: Account, outDelta: int,
                    inId: Key, inAccount: Account, inDelta: int, now: string)
      returns (affected: map<Key, Account>)
      requires outId in accounts && accounts[outId] == outAccount && inId in accounts && accounts[inId] == inAccount
      requires forall a :: a in cached ==> a in accounts && accounts[a] == cached[a]
      modifies this
      ensures State() == Post(Post(old(State()), outId, outDelta, now), inId, inDelta, now)
      ensures affected.Keys == cached.Keys + {outId, inId} && AccountsCover(affected, old(State()), State())
    {
      UpdateAccount(outId, outAccount.balance + outDelta, now);
      affected := cached[outId := outAccount.(balance := outAccount.balance + outDelta, updatedAt := now)];
      if outId == inId {
        var refreshed := accounts[inId];
        UpdateAccount(inId, refreshed.balance + inDelta, now);
        affected := affected[inId := refreshed.(balance := refreshed.balance + inDelta, updatedAt := now)];
      } else {
        UpdateAccount(inId, inAccount.balance + inDelta, now);
        affected := affected[inId := inAccount.(balance := inAccount.balance + inDelta, updatedAt := now)];
      }
    }

    /** The balances of a transfer's legs, starting from the accounts in memory. */
    method PostLegs(cached: map<Key, Account>, outTx: Transaction, inTx: Transaction, now: string)
      returns (r: Result<map<Key, Account>, LedgerError>)
      requires forall a :: a in cached ==> a in accounts && accounts[a] == cached[a]
      modifies this
      ensures match BalancedPair(old(State()), outTx, inTx, now)
              case Failure(e) => r == Failure(e)
              case Success(posted) =>
                && r.Success? && State() == posted && AccountsCover(r.value, old(State()), posted)
                && r.value.Keys == cached.Keys + {outTx.accountId, inTx.accountId}
    {
      hide BalanceDelta, AccountsCover;
      if outTx.accountId !in cached && outTx.accountId !in accounts {
        return Failure(AccountNotFound(outTx.accountId));
      }
      var outSnap := if outTx.accountId in cached then cached[outTx.accountId] else accounts[outTx.accountId];
      if outSnap.isTrashed { return Failure(AccountArchived); }
      if inTx.accountId !in cached && inTx.accountId !in accounts { return Failure(AccountNotFound(inTx.accountId)); }
      var inSnap := if inTx.accountId in cached then cached[inTx.accountId] else accounts[inTx.accountId];
      if inSnap.isTrashed { return Failure(AccountArchived); }
      var affected := PostBoth(cached, outTx.accountId, outSnap, BalanceDelta(outSnap.kind, outTx),
                               inTx.accountId, inSnap, BalanceDelta(inSnap.kind, inTx), now);
      return Success(affected);
    }

    method AddLegs(outTx: Draft, inTx: Draft, outCreated: string, inCreated: string, now: string)
      returns (r: Option<(Key, Key)>)
      modifies this
      ensures match AddedPair(old(State()), outTx, inTx, outCreated, inCreated, now)
              case Failure(e) => r == None && e == KeyTaken
              case Success((after, outId, inId)) => r == Some((outId, inId)) && State() == after
    {
      hide MinOrder;
      var outMinOrder := GetMinDisplayOrder(outTx.tx.date);
      var outRecord := outTx.tx.(displayOrder := outMinOrder - 1, createdAt := outCreated, updatedAt := now);
      var outId := Add(Draft(outTx.id, outRecord));
      if outId.None? { return None; }
      var inMinOrder := GetMinDisplayOrder(inTx.tx.date);
      var inRecord := inTx.tx.(displayOrder := inMinOrder - 1, createdAt := inCreated, updatedAt := now);
      var inId := Add(Draft(inTx.id, inRecord));
      if inId.None? { return None; }
      return Some((outId.value, inId.value));
    }

    method ApplyTransfer(outTx: Draft, inTx: Draft, now: string) returns (r: Result<Handed, LedgerError>)
      modifies this
      ensures match AppliedPair(old(State()), outTx, inTx, now)
              case Failure(e) => r == Failure(e) && State() == old(State())
              case Success((after, outId, inId)) =>
                r.Success? && State() == after && r.value.saved.Keys == {outId, inId}
      ensures r.Success? ==> IsDiff(r.value, old(State()), State())
      ensures r.Success? ==> r.value.removed == {} && r.value.accounts.Keys == {outTx.tx.accountId, inTx.tx.accountId}
    {
      hide IsDiff, AccountsCover, BalancedPair, AddedPair;
      if outTx.tx.transferGroupId != inTx.tx.transferGroupId { return Failure(GroupMismatch); }
      var begin := State();
      var affected := PostLegs(map[], outTx.tx, inTx.tx, now);
      if affected.Failure? { Rollback(begin); return Failure(affected.error); }
      ghost var posted := State();
      BalancedKeepsRows(begin, outTx.tx, inTx.tx, now);
      var ids := AddLegs(outTx, inTx, now, now, now);
      if ids.None? { Rollback(begin); return Failure(KeyTaken); }
      var (outId, inId) := ids.value;
      AddedRows(posted, outTx, inTx, now, now, now);
      PairDiff(begin, posted, outTx, inTx, now, now, now, affected.value, {}, begin);
      return Success(Handed(map[outId := transactions[outId], inId := transactions[inId]], {}, affected.value));
    }

    /** The loop body: one record taken back. The account comes from memory if it was
        read before; what is in memory is always what is stored. */
    method RevertRecord(cached: map<Key, Account>, k: Key, record: Transaction, now: string)
      returns (r: Result<map<Key, Account>, LedgerError>)
      requires forall a :: a in cached ==> a in accounts && accounts[a] == cached[a]
      modifies this
      ensures match RevertedRecord(old(State()), k, record, now)
              case Failure(e) => r == Failure(e)
              case Success(after) =>
                && r.Success? && State() == after && AccountsCover(r.value, old(State()), after)
                && r.value.Keys == cached.Keys + {record.accountId}
    {
      hide BalanceDelta;
      if record.accountId !in cached && record.accountId !in accounts {
        return Failure(AccountNotFound(record.accountId));
      }
      var account := if record.accountId in cached then cached[record.accountId] else accounts[record.accountId];
      if account.isTrashed { return Failure(AccountArchived); }
      var delta := BalanceDelta(account.kind, record);
      UpdateAccount(record.accountId, account.balance - delta, now);
      Delete(k);
      return Success(cached[record.accountId := account.(balance := account.balance - delta, updatedAt := now)]);
    }

    /** The loop over a group's records. */
    method RevertRecords(ids: seq<Key>, now: string) returns (r: Result<map<Key, Account>, LedgerError>)
      requires forall i :: 0 <= i < |ids| ==> ids[i] in transactions
      modifies this
      ensures match RevertedRecords(old(State()), ids, now)
              case Failure(e) => r == Failure(e)
              case Success(after) =>
                && r.Success? && State() == after && AccountsCover(r.value, old(State()), after)
                && r.value.Keys == AccountsOf(old(State()), ids)
    {
      hide RevertedRecord, AccountsCover, AccountsOf;
      ghost var b := State();
      var records := transactions;
      var affected: map<Key, Account> := map[];
      var i := 0;
      NothingCovered(b);
      assert ids[..0] == [];
      while i < |ids|
        invariant 0 <= i <= |ids|
        invariant RevertedRecords(b, ids[..i], now) == Success(State())
        invariant AccountsCover(affected, b, State()) && affected.Keys == AccountsOf(b, ids[..i])
      {
        assert ids[..i + 1][..i] == ids[..i] && ids[..i + 1][i] == ids[i];
        ghost var mid := State();
        CoverIsCurrent(affected, b, mid);
        var more := RevertRecord(affected, ids[i], records[ids[i]], now);
        if more.Failure? {
          RevertFails(b, ids, i + 1, now);
          return Failure(more.error);
        }
        CoverThrough(affected, more.value, b, mid, State());
        assert ids[..i + 1] == ids[..i] + [ids[i]];
        AccountsSnoc(b, ids[..i], ids[i]);
        affected := more.value;
        i := i + 1;
      }
      assert ids[..i] == ids;
      return Success(affected);
    }

    method RevertTransfer(transferGroupId: string, now: string) returns (r: Result<Handed, LedgerError>)
      modifies this
      ensures match RevertedPair(old(State()), transferGroupId, now)
              case Failure(e) => r == Failure(e) && State() == old(State())
              case Success(after) => r.Success? && State() == after
      ensures r.Success? ==> IsDiff(r.value, old(State()), State())
      ensures r.Success? ==>
                var ids := GroupOf(old(State()), transferGroupId);
                && r.value.saved == map[] && r.value.removed == Elements(ids)
                && r.value.accounts.Keys == AccountsOf(old(State()), ids)
    {
      hide IsDiff, AccountsCover, RevertedRecords, AccountsOf;
      var begin := State();
      var ids := GroupKeys(transactions, transferGroupId, nextId);
      if |ids| == 0 { return Failure(WrongLegCount(0)); }
      var affected := RevertRecords(ids, now);
      if affected.Failure? { Rollback(begin); return Failure(affected.error); }
      RevertedRows(begin, ids, now);
      RevertDiff(begin, State(), ids, affected.value);
      return Success(Handed(map[], Elements(ids), affected.value));
    }

    method ReplaceTransfer(transferGroupId: string, outTx: Draft, inTx: Draft, now: string)
      returns (r: Result<Handed, LedgerError>)
      modifies this
      ensures match ReplacedPair(old(State()), transferGroupId, outTx, inTx, now)
              case Failure(e) => r == Failure(e) && State() == old(State())
              case Success((after, outId, inId)) =>
                r.Success? && State() == after && r.value.saved.Keys == {outId, inId}
      ensures r.Success? ==> IsDiff(r.value, old(State()), State())
      ensures r.Success? ==>
                var ids := GroupOf(old(State()), transferGroupId);
                && r.value.removed == Elements(ids)
                && r.value.accounts.Keys
                   == AccountsOf(old(State()), ids) + {outTx.tx.accountId, inTx.tx.accountId}
    {
      hide IsDiff, AccountsCover, BalancedPair, AddedPair, RevertedRecords, CreationOf, AccountsOf;
      var begin := State();
      var ids := GroupKeys(transactions, transferGroupId, nextId);
      if |ids| != 2 { return Failure(WrongLegCount(|ids|)); }
      var outCreated := CreationOf(transactions, ids, OutLeg, now);
      var inCreated := CreationOf(transactions, ids, InLeg, now);
      var reverted := RevertRecords(ids, now);
      if reverted.Failure? { Rollback(begin); return Failure(reverted.error); }
      ghost var mid := State();
      RevertedRows(begin, ids, now);
      CoverIsCurrent(reverted.value, begin, mid);
      var affected := PostLegs(reverted.value, outTx.tx, inTx.tx, now);
      if affected.Failure? { Rollback(begin); return Failure(affected.error); }
      ghost var posted := State();
      BalancedKeepsRows(mid, outTx.tx, inTx.tx, now);
      CoverThrough(reverted.value, affected.value, begin, mid, posted);
      var legs := AddLegs(outTx, inTx, outCreated, inCreated, now);
      if legs.None? { Rollback(begin); return Failure(KeyTaken); }
      var (outId, inId) := legs.value;
      AddedRows(posted, outTx, inTx, outCreated, inCreated, now);
      PairDiff(begin, posted, outTx, inTx, outCreated, inCreated, now, affected.value, Elements(ids), mid);
      return Success(Handed(map[outId := transactions[outId], inId := transactions[inId]],
                            Elements(ids), affected.value));
    }

    method AdjustBalance(accountId: Key, newBalance: int, now: string) returns (r: Result<Handed, LedgerError>)
      modifies this
      ensures match Adjusted(old(State()), accountId, newBalance, now)
              case Failure(e) => r == Failure(e) && State() == old(State())
              case Success(after) => r.Success? && State() == after
      ensures r.Success? ==> accountId in accounts && accounts[accountId].balance == newBalance
      ensures r.Success? ==> r.value.saved == map[] && r.value.removed == {} && r.value.accounts.Keys == {accountId}
      ensures r.Success? ==> IsDiff(r.value, old(State()), State())
    {
      if accountId !in accounts { return Failure(AccountNotFound(accountId)); }
      var account := accounts[accountId];
      if account.isTrashed { return Failure(AccountArchived); }
      UpdateAccount(accountId, newBalance, now);
      return Success(Handed(map[], {}, map[accountId := account.(balance := newBalance, updatedAt := now)]));
    }
  }

  /** The accounts listed are current, and no other has changed. */
  ghost predicate AccountsCover(affected: map<Key, Account>, b: Books, after: Books) {
    && after.accounts.Keys == b.accounts.Keys
    && (forall a :: a in affected ==> a in after.accounts && after.accounts[a] == affected[a])
    && (forall a :: a in b.accounts && a !in affected ==> after.accounts[a] == b.accounts[a])
  }

  lemma RepostKeepsRows(b: Books, o: Transaction, tx: Transaction, now: string)
    requires Reposted(b, o, tx, now).Success?
    ensures var posted := Reposted(b, o, tx, now).value;
            posted.transactions == b.transactions && posted.nextId == b.nextId
  {
  }

  /** Posting twice to one account adds up. */
  lemma PostTwice(b: Books, a: Key, first: int, second: int, now: string)
    requires a in b.accounts
    ensures Post(Post(b, a, first, now), a, second, now) == Post(b, a, first + second, now)
  {
  }

  lemma MinOrderIgnoresAccounts(b: Books, c: Books, date: string)
    requires b.transactions == c.transactions && b.nextId == c.nextId
    ensures MinOrder(b, date) == MinOrder(c, date)
  {
  }

  lemma PutDiff(b: Books, posted: Books, id: Option<Key>, tx: Transaction, affected: map<Key, Account>)
    requires posted.transactions == b.transactions && AccountsCover(affected, b, posted)
    ensures var (after, k) := PutRow(posted, id, tx); IsDiff(Handed(map[k := tx], {}, affected), b, after)
  {
  }

  lemma BalancedKeepsRows(b: Books, outTx: Transaction, inTx: Transaction, now: string)
    requires BalancedPair(b, outTx, inTx, now).Success?
    ensures var posted := BalancedPair(b, outTx, inTx, now).value;
            posted.transactions == b.transactions && posted.nextId == b.nextId
  {
  }

  lemma AddedRows(b: Books, outTx: Draft, inTx: Draft, outCreated: string, inCreated: string, now: string)
    requires AddedPair(b, outTx, inTx, outCreated, inCreated, now).Success?
    ensures var (after, outId, inId) := AddedPair(b, outTx, inTx, outCreated, inCreated, now).value;
            && outId != inId
            && after.accounts == b.accounts
            && outId in after.transactions && inId in after.transactions
            && after.transactions ==
               b.transactions[outId := after.transactions[outId]][inId := after.transactions[inId]]
  {
  }

  /** A failed revert fails as a whole. */
  lemma {:induction false} RevertFails(b: Books, ids: seq<Key>, i: nat, now: string)
    requires forall i :: 0 <= i < |ids| ==> ids[i] in b.transactions
    requires i <= |ids| && RevertedRecords(b, ids[..i], now).Failure?
    ensures RevertedRecords(b, ids, now) == RevertedRecords(b, ids[..i], now)
  {
    if i == |ids| {
      assert ids[..i] == ids;
    } else {
      assert ids[..|ids| - 1][..i] == ids[..i];
      RevertFails(b, ids[..|ids| - 1], i, now);
    }
  }

  lemma {:induction false} RevertedRows(b: Books, ids: seq<Key>, now: string)
    requires forall i :: 0 <= i < |ids| ==> ids[i] in b.transactions
    requires RevertedRecords(b, ids, now).Success?
    ensures var after := RevertedRecords(b, ids, now).value;
            && after.nextId == b.nextId && after.accounts.Keys == b.accounts.Keys
            && after.transactions == b.transactions - Elements(ids)
  {
    if ids != [] {
      hide BalanceDelta;
      var front := ids[..|ids| - 1];
      RevertedRows(b, front, now);
      assert ids == front + [ids[|ids| - 1]];
      assert Elements(ids) == Elements(front) + {ids[|ids| - 1]};
    }
  }

  lemma RevertDiff(b: Books, after: Books, ids: seq<Key>, affected: map<Key, Account>)
    requires AccountsCover(affected, b, after) && after.transactions == b.transactions - Elements(ids)
    ensures IsDiff(Handed(map[], Elements(ids), affected), b, after)
  {
  }

  lemma NothingCovered(b: Books)
    ensures AccountsCover(map[], b, b) && AccountsOf(b, []) == {}
  {
  }

  lemma CoverIsCurrent(affected: map<Key, Account>, b: Books, after: Books)
    requires AccountsCover(affected, b, after)
    ensures forall a :: a in affected ==> a in after.accounts && after.accounts[a] == affected[a]
  {
  }

  lemma CoverThrough(first: map<Key, Account>, second: map<Key, Account>, b: Books, mid: Books, after: Books)
    requires AccountsCover(first, b, mid) && AccountsCover(second, mid, after) && first.Keys <= second.Keys
    ensures AccountsCover(second, b, after)
  {
  }

  lemma PairDiff(b: Books, posted: Books, outTx: Draft, inTx: Draft, outCreated: string, inCreated: string,
                 now: string, affected: map<Key, Account>, removed: set<Key>, mid: Books)
    requires AddedPair(posted, outTx, inTx, outCreated, inCreated, now).Success?
    requires AccountsCover(affected, b, posted)
    requires mid.transactions == b.transactions - removed && posted.transactions == mid.transactions
    ensures var (after, outId, inId) := AddedPair(posted, outTx, inTx, outCreated, inCreated, now).value;
            && outId in after.transactions && inId in after.transactions
            && IsDiff(Handed(map[outId := after.transactions[outId], inId := after.transactions[inId]],
                             removed, affected),
                      b, after)
  {
  }
}
