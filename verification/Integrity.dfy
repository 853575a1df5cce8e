/** The start-up integrity check (src/services/integrity.service.ts). */
module Integrity {
  import opened Wrappers
  import opened Ledgers
  import opened LedgerLaws
  import opened Flows

  datatype FailureKind = ReadFailure | OrphanedTransfer(groups: nat) | OrphanedAccountRef(rows: nat)

  datatype IntegrityResult = Ok | Failed(kind: FailureKind)

  function GroupIds(b: Books): set<string> {
    set k | k in b.transactions && b.transactions[k].transferGroupId.Some? :: b.transactions[k].transferGroupId.value
  }

  function OrphanedGroups(b: Books): set<string> {
    set g | g in GroupIds(b) && LegCount(b, g) != 2
  }

  function OrphanedRows(b: Books): set<Key> {
    set k | k in b.transactions && b.transactions[k].accountId !in b.accounts
  }

  lemma LegValue(tx: Transaction, g: string)
    ensures Value(InGroup(g, Rows), tx) == if tx.transferGroupId == Some(g) then 1 else 0
  {
  }

  /** `where("transferGroupId").equals(g).count()` */
  method CountLegs(l: Ledger, g: string) returns (n: int)
    ensures n == LegCount(l.State(), g)
  {
    n := 0;
    for k := 0 to l.nextId
      invariant n == SumBelow(l.transactions, InGroup(g, Rows), k)
    {
      if k in l.transactions {
        LegValue(l.transactions[k], g);
        if l.transactions[k].transferGroupId == Some(g) { n := n + 1; }
      }
    }
  }

  method CountOrphanedTransferLegs(l: Ledger) returns (orphaned: nat)
    ensures orphaned == |OrphanedGroups(l.State())|
  {
    hide LegCount;
    var b := l.State();
    var todo := GroupIds(b);
    ghost var found: set<string> := {};
    orphaned := 0;
    while todo != {}
      invariant todo <= GroupIds(b) && found <= GroupIds(b) - todo
      invariant forall g :: g in GroupIds(b) - todo ==> (g in found <==> LegCount(b, g) != 2)
      invariant orphaned == |found|
      decreases todo
    {
      var g :| g in todo;
      var legCount := CountLegs(l, g);
      if legCount != 2 {
        orphaned := orphaned + 1;
        found := found + {g};
      }
      todo := todo - {g};
    }
    assert found == OrphanedGroups(b);
  }

  method CountOrphanedAccountRefs(l: Ledger) returns (orphaned: nat)
    ensures orphaned == |OrphanedRows(l.State())|
  {
    var b := l.State();
    var todo := b.transactions.Keys;
    ghost var found: set<Key> := {};
    orphaned := 0;
    while todo != {}
      invariant todo <= b.transactions.Keys
      invariant found == set k | k in b.transactions.Keys - todo && b.transactions[k].accountId !in b.accounts
      invariant orphaned == |found|
      decreases todo
    {
      var k :| k in todo;
      if l.transactions[k].accountId !in l.accounts {
        orphaned := orphaned + 1;
        found := found + {k};
      }
      todo := todo - {k};
    }
    assert found == OrphanedRows(b);
  }

  lemma {:induction false} LegsCounted(txs: map<Key, Transaction>, g: string, n: nat)
    ensures SumBelow(txs, InGroup(g, Rows), n) >= 0
    ensures SumBelow(txs, InGroup(g, Rows), n) > 0 <==>
            exists k :: k in txs && k < n && txs[k].transferGroupId == Some(g)
  {
    if n > 0 {
      LegsCounted(txs, g, n - 1);
      if n - 1 in txs { LegValue(txs[n - 1], g); }
      hide Value;
    }
  }

  /** A group has legs exactly if it is in use. */
  lemma UsedGroupsHaveLegs(b: Books, g: string)
    requires KeysBelow(b)
    ensures LegCount(b, g) > 0 <==> g in GroupIds(b)
    ensures LegCount(b, g) >= 0
  {
    LegsCounted(b.transactions, g, b.nextId);
    if g in GroupIds(b) {
      var k :| k in b.transactions && b.transactions[k].transferGroupId.Some?
               && b.transactions[k].transferGroupId.value == g;
      assert k < b.nextId && b.transactions[k].transferGroupId == Some(g);
    }
  }

  /** The counts are zero exactly if the tables have the property they look for. */
  lemma NoOrphansIff(b: Books)
    requires KeysBelow(b)
    ensures OrphanedGroups(b) == {} <==> LegsOk(b)
    ensures OrphanedRows(b) == {} <==> RefsOk(b)
  {
    hide LegCount;
    forall g ensures (LegCount(b, g) > 0 <==> g in GroupIds(b)) && LegCount(b, g) >= 0 {
      UsedGroupsHaveLegs(b, g);
    }
    if OrphanedGroups(b) == {} {
      forall g ensures LegCount(b, g) == 0 || LegCount(b, g) == 2 {
        assert g !in OrphanedGroups(b);
      }
    }
    if OrphanedRows(b) == {} {
      forall k | k in b.transactions ensures b.transactions[k].accountId in b.accounts {
        assert k !in OrphanedRows(b);
      }
    }
  }

  /** `readable` stands for the table reads at the start, `legsReadable` and
      `refsReadable` for the reads of the two semantic checks: one that throws is
      logged and ends the checks without a finding. */
  method CheckDatabaseIntegrity(l: Ledger, readable: bool, legsReadable: bool, refsReadable: bool)
    returns (r: IntegrityResult)
    requires KeysBelow(l.State())
    ensures r == if !readable then Failed(ReadFailure)
                 else if !legsReadable then Ok
                 else if !LegsOk(l.State()) then Failed(OrphanedTransfer(|OrphanedGroups(l.State())|))
                 else if !refsReadable then Ok
                 else if !RefsOk(l.State()) then Failed(OrphanedAccountRef(|OrphanedRows(l.State())|))
                 else Ok
  {
    hide LegCount, LegsOk, RefsOk, OrphanedGroups, OrphanedRows;
    if !readable { return Failed(ReadFailure); }
    NoOrphansIff(l.State());
    if !legsReadable { return Ok; }
    var orphanedTransferCount := CountOrphanedTransferLegs(l);
    EmptyIffNone(OrphanedGroups(l.State()));
    if orphanedTransferCount > 0 { return Failed(OrphanedTransfer(orphanedTransferCount)); }
    if !refsReadable { return Ok; }
    var orphanedAccountRefCount := CountOrphanedAccountRefs(l);
    EmptyIffNone(OrphanedRows(l.State()));
    if orphanedAccountRefCount > 0 { return Failed(OrphanedAccountRef(orphanedAccountRefCount)); }
    return Ok;
  }

  lemma EmptyIffNone<T>(s: set<T>)
    ensures |s| == 0 <==> s == {}
  {
  }

  /** Along every run whose callers keep the rule on groups, the check passes. */
  lemma {:induction false} CheckAlwaysPasses(es: seq<Event>, bs: seq<Books>, i: nat, kinds: Kinds, n: nat)
    requires IsLife(es, bs, kinds, n) && i <= |es|
    requires forall k :: 0 <= k < |es| ==> KeepsGroups(bs[k], es[k].op)
    ensures LegsOk(bs[i]) && RefsOk(bs[i])
  {
    if i == 0 {
      assert forall m :: SumBelow(map[], m, 0) == 0 && SumBelow(map[], m, 1) == 0;
    } else {
      hide Step, LegsOk, RefsOk, KeepsGroups, PassesStored;
      CheckAlwaysPasses(es, bs, i - 1, kinds, n);
      var b, e := bs[i - 1], es[i - 1];
      assert Step(b, e.op, e.now, bs[i]) && Fits(b, kinds, n) && KeepsGroups(b, e.op);
      GroupsStayWholeIff(b, e.op, e.now, bs[i]);
      StepKeepsRefs(b, e.op, e.now, bs[i]);
    }
  }
}
