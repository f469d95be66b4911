/** Data that archival never gets through, for every batch size: a refund recorded
    a whole batch after its charge (markChargeRefunded in
    src/app/payment/repository/transaction.repo.ts). */
module ArchivalLimits {
  import opened Prelude
  import opened ArchivalTables
  import opened ArchivalBatches
  import opened ArchivalSlots
  import opened ArchivalRefunds
  import opened ArchivalProtocol
  import Rejections = ArchivalRejections
  import Theorems = ArchivalTheorems

  function UpTo(n: nat): (ids: set<nat>)
    ensures |ids| == n && forall i :: i in ids <==> 1 <= i <= n
  {
    if n == 0 then {} else UpTo(n - 1) + {n}
  }

  function Charge(size: nat, k: Key): Row {
    Row(0, Some(1), if k.id == 1 then Some(size + 1) else None, None, [], "transaction")
  }

  /** Order 1 with size + 1 transactions, of which the first was refunded by the
      last: markChargeRefunded makes the charge point at a higher id. */
  function LateRefund(size: nat): Db {
    map[Key(Orders, 1) := Row(0, None, None, None, [], "order")] +
    (map k | k in KeysOf(Transactions, UpTo(size + 1)) :: Charge(size, k))
  }

  lemma LateRefundContents(size: nat, y: int, k: Key)
    ensures var db := LateRefund(size);
      && (k in db <==> k == Key(Orders, 1) || (k.table == Transactions && k.id <= size + 1))
      && (k in db && k.table == Transactions ==> db[k] == Charge(size, k))
      && (k in db && y > 0 ==> Eligible(db, k, y))
  {
  }

  lemma LateRefundRow(size: nat, k: Key, t: Key)
    requires k in LateRefund(size) && t in Refs(k, LateRefund(size)[k])
    ensures t in LateRefund(size) && (t.table != Orders ==> LateRefund(size)[t].order == LateRefund(size)[k].order)
  {
    LateRefundContents(size, 1, k);
    LateRefundContents(size, 1, t);
  }

  lemma LateRefundIsLegal(size: nat)
    ensures ForeignKeysHold(LateRefund(size)) && SameFamily(LateRefund(size)) && DeliveriesPointDown(LateRefund(size))
  {
    var db := LateRefund(size);
    forall k, t | k in db && t in Refs(k, db[k])
      ensures t in db && (t.table != Orders ==> db[t].order == db[k].order)
    {
      LateRefundRow(size, k, t);
    }
    forall k | k in db ensures k.table != Deliveries { LateRefundContents(size, 1, k); }
  }

  /** A region holding just this order can start archiving. */
  lemma LateRefundIsAStart(c: Config, now: int)
    requires Calendar(c)
    ensures Initial(c, State(LateRefund(c.batch), map[], now, map[]))
  {
    LateRefundIsLegal(c.batch);
  }

  lemma LateRefundIsDue(size: nat, y: int)
    requires y > 0
    ensures EligibleRows(LateRefund(size), y) == LateRefund(size)
    ensures Payments(LateRefund(size)) == UpTo(size + 1)
  {
    var db := LateRefund(size);
    forall k | k in db ensures Eligible(db, k, y) { LateRefundContents(size, y, k); }
    forall i: nat ensures i in Payments(db) <==> i in UpTo(size + 1) {
      if i >= 1 {
        PaymentsAre(db, Key(Transactions, i));
        LateRefundContents(size, y, Key(Transactions, i));
      }
    }
  }

  /** The charge is in the first slot, its refund in the next. */
  lemma LateRefundSlots(size: nat)
    requires size >= 1
    ensures Up(UpTo(size + 1), size, 1) == 0 && Up(UpTo(size + 1), size, size + 1) == 1
  {
    var ids := UpTo(size + 1);
    assert (set t | t in ids && t < 1) == {};
    assert (set t | t in ids && t < size + 1) == UpTo(size);
    QuotientIs(0, size, 0, 0);
    QuotientIs(size, size, 1, 0);
  }

  lemma LaterSlotIsLate(batch: nat, E: Db, A: Db, k: Key, r: Key, m: nat, n: nat)
    requires batch > 0 && k !in A && r !in A && m < n
    requires Up(Payments(E), batch, k.id) == m && Up(Payments(E), batch, r.id) == n
    ensures !CopiedInTime(batch, E, A, k, r)
  {
  }

  lemma FirstIsRefundedByLast(size: nat)
    ensures Refunds(LateRefund(size), Key(Transactions, 1), Key(Transactions, size + 1))
  {
    LateRefundContents(size, 1, Key(Transactions, 1));
  }

  lemma ChargeSlot(size: nat)
    requires size >= 1
    ensures Up(Payments(LateRefund(size)), size, 1) == 0
  {
    LateRefundIsDue(size, 1);
    LateRefundSlots(size);
  }

  lemma RefundSlot(size: nat)
    requires size >= 1
    ensures Up(Payments(LateRefund(size)), size, size + 1) == 1
  {
    LateRefundIsDue(size, 1);
    LateRefundSlots(size);
  }

  lemma LateRefundIsLate(size: nat, A: Db)
    requires size >= 1 && Key(Transactions, 1) !in A && Key(Transactions, size + 1) !in A
    ensures !CopiedInTime(size, LateRefund(size), A, Key(Transactions, 1), Key(Transactions, size + 1))
  {
    ChargeSlot(size);
    RefundSlot(size);
    LaterSlotIsLate(size, LateRefund(size), A, Key(Transactions, 1), Key(Transactions, size + 1), 0, 1);
  }

  /** For every batch size there are legal data on which archival of the year stops
      for good: in every run of it, none of the transactions is ever archived, no
      worker ever deletes anything, every row stays in hot, and no worker completes. */
  lemma LateRefundBlocksArchival(c: Config, trace: seq<State>, actions: seq<Action>, n: nat)
    requires IsRun(c, trace, actions) && LaunchesFit(c, trace, actions) && Rejections.SameYear(c, trace, actions)
    requires n < |trace| && trace[0].hot == LateRefund(c.batch) && c.yearStart(trace[0].now) > 0
    requires forall k :: k in trace[0].archive ==> k.table != Transactions
    ensures forall k :: k in LateRefund(c.batch) && k.table == Transactions ==> k !in trace[n].archive
    ensures LateRefund(c.batch).Keys <= trace[n].hot.Keys
    ensures forall id :: id in trace[n].workers ==>
              !trace[n].workers[id].pc.DeleteWrite? && !Theorems.Completed(trace[n], id)
  {
    var size := c.batch;
    var V, k, r := LateRefund(size), Key(Transactions, 1), Key(Transactions, size + 1);
    LateRefundIsDue(size, c.yearStart(trace[0].now));
    LateRefundSlots(size);
    FirstIsRefundedByLast(size);
    LateRefundIsLate(size, trace[0].archive);
    Rejections.LateCopyBlocksTheYear(c, trace, actions, n, k, r);
    forall t | t in V && t.table == Transactions ensures t !in trace[n].archive {
      assert Payment(V, t) && Up(Payments(V), size, k.id) == 0;
    }
  }
}
