/** When archival gets past the self-reference of transactions. A charge stores the
    id of its refund, which is a later row (markChargeRefunded in
    src/app/payment/repository/transaction.repo.ts), so a batch that separates the
    two is rejected. This module gives the exact condition on the data. */
module ArchivalRefunds {
  import opened Prelude
  import opened ArchivalTables
  import opened ArchivalBatches
  import opened ArchivalSlots

  const COPY: Pass := 2     // transactions in the pass 1 order
  const CLEAR: Pass := 4    // transactions in the pass 2 order

  lemma OnlyPayments(i: Pass, j: Pass)
    ensures InsertTable(i) == Transactions <==> i == COPY
    ensures DeleteTable(j) == Transactions <==> j == CLEAR
  {
  }

  predicate Payment(E: Db, k: Key) {
    k in E && k.table == Transactions
  }

  function Payments(E: Db): set<nat> {
    set k | k in E && k.table == Transactions :: k.id
  }

  lemma PaymentsAre(E: Db, k: Key)
    requires k.table == Transactions
    ensures k.id in Payments(E) <==> k in E
  {
    if k.id in Payments(E) {
      var e :| e in E && e.table == Transactions && e.id == k.id;
      assert e == k;
    }
  }

  /** The charge k is refunded by r. */
  predicate Refunds(E: Db, k: Key, r: Key) {
    Payment(E, k) && r.table == Transactions && E[k].self == Some(r.id)
  }

  lemma RefundIsThere(E: Db, k: Key, r: Key)
    requires ForeignKeysHold(E) && Refunds(E, k, r)
    ensures Payment(E, r)
  {
    assert r in Refs(k, E[k]);
  }

  /** Pass 1 gets the refund to the archive no later than the charge. */
  predicate CopiedInTime(batch: nat, E: Db, A: Db, k: Key, r: Key)
    requires batch > 0
  {
    k in A || r in A || Up(Payments(E), batch, r.id) <= Up(Payments(E), batch, k.id)
  }

  /** Pass 2 deletes the charge no later than the refund. */
  predicate DeletedInTime(batch: nat, E: Db, k: Key, r: Key)
    requires batch > 0
  {
    Down(Payments(E), batch, k.id) <= Down(Payments(E), batch, r.id)
  }

  /** The condition: cut into batches from the lowest id, and again from the highest,
      no charge comes before its refund, unless one of the two was archived before. */
  ghost predicate RefundsInSlots(batch: nat, E: Db, A: Db)
    requires batch > 0
  {
    forall k, r :: Refunds(E, k, r) ==> CopiedInTime(batch, E, A, k, r) && DeletedInTime(batch, E, k, r)
  }

  /** For a charge that is older than its refund this means sharing both batches. */
  lemma OlderChargeSharesSlots(batch: nat, E: Db, A: Db, k: Key, r: Key)
    requires batch > 0 && k.id <= r.id && k !in A && r !in A
    ensures CopiedInTime(batch, E, A, k, r) <==> Up(Payments(E), batch, r.id) == Up(Payments(E), batch, k.id)
    ensures DeletedInTime(batch, E, k, r) <==> Down(Payments(E), batch, r.id) == Down(Payments(E), batch, k.id)
  {
    UpGrows(Payments(E), batch, k.id, r.id);
    DownShrinks(Payments(E), batch, k.id, r.id);
  }

  // ---- how far transactions have got ------------------------------------------

  ghost predicate AllCopied(E: Db, archive: Db) {
    forall k :: Payment(E, k) ==> k in archive
  }

  function LeftIn(E: Db, hot: Db): set<nat> {
    set k | k in E && k.table == Transactions && k in hot :: k.id
  }

  lemma LeftInIs(E: Db, hot: Db, k: Key)
    requires k.table == Transactions
    ensures k.id in LeftIn(E, hot) <==> k in E && k in hot
    ensures LeftIn(E, hot) <= Payments(E)
  {
    if k.id in LeftIn(E, hot) {
      var e :| e in E && e.table == Transactions && e in hot && e.id == k.id;
      assert e == k;
    }
  }

  /** Pass 1 works from the lowest slot up. */
  ghost predicate CopiedFromTheBottom(batch: nat, E: Db, A: Db, archive: Db)
    requires batch > 0
  {
    forall k, r | Payment(E, k) && Payment(E, r) && k in archive && k !in A
        && Up(Payments(E), batch, r.id) <= Up(Payments(E), batch, k.id) ::
      r in archive
  }

  /** What the foreign key of the archive let through was in time. */
  ghost predicate CopiesWereInTime(batch: nat, E: Db, A: Db, archive: Db)
    requires batch > 0
  {
    forall k, r :: Refunds(E, k, r) && k in archive ==> CopiedInTime(batch, E, A, k, r)
  }

  ghost predicate DeletesWereInTime(batch: nat, E: Db, hot: Db)
    requires batch > 0
  {
    forall k, r :: Refunds(E, k, r) && r !in hot ==> DeletedInTime(batch, E, k, r)
  }

  ghost predicate Slots(batch: nat, E: Db, A: Db, hot: Db, archive: Db)
    requires batch > 0
  {
    && GoneFromTheTop(Payments(E), batch, LeftIn(E, hot))
    && ((exists k :: Payment(E, k) && k !in hot) ==> AllCopied(E, archive))
    && CopiedFromTheBottom(batch, E, A, archive)
    && CopiesWereInTime(batch, E, A, archive)
    && DeletesWereInTime(batch, E, hot)
  }

  lemma SlotsAtStart(batch: nat, E: Db, hot: Db, A: Db)
    requires batch > 0 && forall k :: k in E ==> k in hot
    requires ForeignKeysHold(E)
    ensures Slots(batch, E, A, hot, A)
  {
    assert LeftIn(E, hot) == Payments(E);
    forall k, r | Refunds(E, k, r) ensures r in hot { RefundIsThere(E, k, r); }
  }

  // ---- pass 1 ------------------------------------------------------------------

  ghost predicate CursorInSlots(batch: nat, E: Db, archive: Db, i: Pass, cursor: nat)
    requires batch > 0
  {
    i == COPY ==> AllCopied(E, archive) || Aligned(Payments(E), batch, cursor)
  }

  ghost predicate RowsInSlot(batch: nat, E: Db, archive: Db, i: Pass, rows: Db)
    requires batch > 0
  {
    i == COPY ==> AllCopied(E, archive) || FullSlot(batch, Payments(E), rows)
  }

  ghost predicate FullSlot(batch: nat, ids: set<nat>, rows: Db)
    requires batch > 0
  {
    && FillsUp(ids, batch, IdsOf(rows))
    && (|rows| >= batch ==> |rows| > 0 && Aligned(ids, batch, LastId(rows)))
  }

  lemma EligiblePaymentsAreLeft(y: int, E: Db, A: Db, hot: Db, archive: Db)
    requires TablesOk(y, E, A, hot, archive)
    ensures EligibleIds(hot, Transactions, y) == LeftIn(E, hot)
  {
    EligibleIdsAre(hot, Transactions, y);
    forall i: nat ensures i in EligibleIds(hot, Transactions, y) <==> i in LeftIn(E, hot) {
      if i >= 1 { LeftInIs(E, hot, Key(Transactions, i)); }
    }
  }

  lemma AllLeft(batch: nat, E: Db, A: Db, hot: Db, archive: Db)
    requires batch > 0 && Slots(batch, E, A, hot, archive) && !AllCopied(E, archive)
    ensures LeftIn(E, hot) == Payments(E)
  {
    forall k | Payment(E, k) ensures k in hot {}
  }

  lemma SelectedIsFullSlot(batch: nat, y: int, hot: Db, ids: set<nat>, cursor: nat)
    requires batch > 0 && EligibleIds(hot, Transactions, y) == ids && Aligned(ids, batch, cursor)
    ensures FullSlot(batch, ids, NextRows(hot, Transactions, y, cursor, batch))
  {
    NextRowsIds(hot, Transactions, y, cursor, batch);
    SelectedFillsUp(ids, batch, cursor);
    var rows := NextRows(hot, Transactions, y, cursor, batch);
    if |rows| >= batch { LastIsAligned(batch, ids, cursor, rows); }
  }

  lemma SelectedRowsInSlot(batch: nat, y: int, E: Db, A: Db, hot: Db, archive: Db, i: Pass, cursor: nat)
    requires batch > 0 && TablesOk(y, E, archive, hot, archive) && Slots(batch, E, A, hot, archive)
    requires CursorInSlots(batch, E, archive, i, cursor)
    ensures RowsInSlot(batch, E, archive, i, NextRows(hot, InsertTable(i), y, cursor, batch))
  {
    OnlyPayments(i, CLEAR);
    if i == COPY && !AllCopied(E, archive) {
      EligiblePaymentsAreLeft(y, E, archive, hot, archive);
      AllLeft(batch, E, A, hot, archive);
      SelectedIsFullSlot(batch, y, hot, Payments(E), cursor);
    }
  }

  lemma LastIsAligned(batch: nat, ids: set<nat>, cursor: nat, rows: Batch)
    requires batch > 0 && Aligned(ids, batch, cursor)
    requires IdsOf(rows) == Smallest(Beyond(ids, cursor), batch) && |IdsOf(rows)| >= batch
    ensures Aligned(ids, batch, LastId(rows))
  {
    StaysAligned(ids, batch, cursor, LastId(rows));
  }

  /** A selected row up to whose slot r counts is preceded or accompanied by r. */
  lemma SlotIsCovered(batch: nat, E: Db, archive: Db, rows: Db, k: Key, r: Key)
    requires batch > 0 && InsertBatch(batch, E, archive, COPY, rows) && FillsUp(Payments(E), batch, IdsOf(rows))
    requires k in rows && Payment(E, r) && Up(Payments(E), batch, r.id) <= Up(Payments(E), batch, k.id)
    ensures r in archive || r in rows
  {
    PaymentsAre(E, r);
    PaymentsAre(E, k);
    if r.id > k.id {
      UpGrows(Payments(E), batch, k.id, r.id);
      assert r.id in IdsOf(rows);
      IdIsKey(rows, r);
    }
  }

  lemma IdIsKey(rows: Db, r: Key)
    requires forall k :: k in rows ==> k.table == r.table
    ensures r.id in IdsOf(rows) <==> r in rows
  {
    if r.id in IdsOf(rows) {
      var k :| k in rows && k.id == r.id;
      assert k == r;
    }
  }

  lemma RefundIsCovered(batch: nat, E: Db, A: Db, archive: Db, rows: Db, k: Key, r: Key)
    requires batch > 0 && ForeignKeysHold(E) && InsertBatch(batch, E, archive, COPY, rows)
    requires RowsInSlot(batch, E, archive, COPY, rows) && (forall e :: e in A ==> e in archive)
    requires RefundsInSlots(batch, E, A) && Refunds(E, k, r) && k in rows && k !in archive
    ensures r in rows || r in archive
  {
    RefundIsThere(E, k, r);
    assert CopiedInTime(batch, E, A, k, r);
    if r !in A { SlotIsCovered(batch, E, archive, rows, k, r); }
  }

  /** If refunds are in their slots the archive accepts the batch. */
  lemma InSlotsIsAccepted(batch: nat, E: Db, A: Db, archive: Db, i: Pass, rows: Db)
    requires batch > 0 && ClosedFamilies(E) && Copied(E, archive, i) && InsertBatch(batch, E, archive, i, rows)
    requires RowsInSlot(batch, E, archive, i, rows) && (forall k :: k in A ==> k in archive)
    requires RefundsInSlots(batch, E, A)
    ensures InsertAccepted(archive, rows)
  {
    OnlyPayments(i, CLEAR);
    InsertVerdict(batch, E, archive, i, rows);
    if i == COPY { InSlotsIsResolved(batch, E, A, archive, rows); }
  }

  lemma InSlotsIsResolved(batch: nat, E: Db, A: Db, archive: Db, rows: Db)
    requires batch > 0 && ForeignKeysHold(E) && InsertBatch(batch, E, archive, COPY, rows)
    requires RowsInSlot(batch, E, archive, COPY, rows) && (forall k :: k in A ==> k in archive)
    requires RefundsInSlots(batch, E, A)
    ensures RefundsResolved(archive, rows)
  {
    forall k | k in rows && k !in archive && k.table == Transactions && rows[k].self.Some?
      ensures Key(Transactions, rows[k].self.value) in rows.Keys + archive.Keys
    {
      RefundIsCovered(batch, E, A, archive, rows, k, Key(Transactions, rows[k].self.value));
    }
  }

  lemma CopiedFromTheBottomAgain(batch: nat, E: Db, A: Db, archive: Db, rows: Db)
    requires batch > 0 && CopiedFromTheBottom(batch, E, A, archive)
    requires InsertBatch(batch, E, archive, COPY, rows) && RowsInSlot(batch, E, archive, COPY, rows)
    ensures CopiedFromTheBottom(batch, E, A, InsertIgnore(archive, rows))
  {
    forall k, r | Payment(E, k) && Payment(E, r) && k in InsertIgnore(archive, rows) && k !in A
        && Up(Payments(E), batch, r.id) <= Up(Payments(E), batch, k.id)
      ensures r in InsertIgnore(archive, rows)
    {
      if k !in archive { SlotIsCovered(batch, E, archive, rows, k, r); }
    }
  }

  /** What pass 1 copied lies below what it has not copied yet. */
  lemma EarlierCopied(batch: nat, E: Db, A: Db, archive: Db, k: Key, r: Key)
    requires batch > 0 && CopiedFromTheBottom(batch, E, A, archive)
    requires Payment(E, k) && Payment(E, r) && k !in archive && r in archive && r !in A
    ensures Up(Payments(E), batch, r.id) < Up(Payments(E), batch, k.id)
  {
  }

  lemma SameBatchInTime(batch: nat, E: Db, A: Db, archive: Db, rows: Db, k: Key, r: Key)
    requires batch > 0 && RowsInSlot(batch, E, archive, COPY, rows)
    requires Payment(E, k) && k !in archive && k in rows && r in rows && r.table == Transactions
    ensures CopiedInTime(batch, E, A, k, r)
  {
    assert FillsUp(Payments(E), batch, IdsOf(rows));
    assert k.id in IdsOf(rows) && r.id in IdsOf(rows);
  }

  lemma AcceptedHasTarget(archive: Db, rows: Db, k: Key, r: Key)
    requires InsertAccepted(archive, rows) && k in rows && k !in archive && r in Refs(k, rows[k])
    ensures r in rows || r in archive
  {
  }

  lemma AcceptedWasInTime(batch: nat, E: Db, A: Db, archive: Db, rows: Db, k: Key, r: Key)
    requires batch > 0 && ForeignKeysHold(E) && CopiedFromTheBottom(batch, E, A, archive)
    requires InsertBatch(batch, E, archive, COPY, rows) && RowsInSlot(batch, E, archive, COPY, rows)
    requires InsertAccepted(archive, rows) && Refunds(E, k, r) && k in rows && k !in archive
    ensures CopiedInTime(batch, E, A, k, r)
  {
    hide RowsInSlot, CopiedFromTheBottom, InsertAccepted, ForeignKeysHold;
    RefundIsThere(E, k, r);
    assert rows[k] == E[k] && r in Refs(k, rows[k]);
    AcceptedHasTarget(archive, rows, k, r);
    hide InsertBatch, Refs;
    if r in rows {
      SameBatchInTime(batch, E, A, archive, rows, k, r);
    } else if r !in A {
      EarlierCopied(batch, E, A, archive, k, r);
    }
  }

  /** Copying another table is no matter. */
  lemma OtherCopies(batch: nat, E: Db, A: Db, hot: Db, archive: Db, rows: Db)
    requires batch > 0 && Slots(batch, E, A, hot, archive) && forall k :: k in rows ==> k.table != Transactions
    ensures Slots(batch, E, A, hot, InsertIgnore(archive, rows))
  {
  }

  lemma SlotsAfterInsert(batch: nat, E: Db, A: Db, hot: Db, archive: Db, i: Pass, rows: Db)
    requires batch > 0 && ForeignKeysHold(E) && Slots(batch, E, A, hot, archive)
    requires InsertBatch(batch, E, archive, i, rows) && RowsInSlot(batch, E, archive, i, rows)
    requires InsertAccepted(archive, rows)
    ensures Slots(batch, E, A, hot, InsertIgnore(archive, rows))
  {
    OnlyPayments(i, CLEAR);
    if i != COPY {
      OtherCopies(batch, E, A, hot, archive, rows);
    } else {
      CopiedFromTheBottomAgain(batch, E, A, archive, rows);
      forall k, r | Refunds(E, k, r) && k in InsertIgnore(archive, rows) ensures CopiedInTime(batch, E, A, k, r) {
        if k !in archive { AcceptedWasInTime(batch, E, A, archive, rows, k, r); }
      }
    }
  }

  // ---- pass 2 ------------------------------------------------------------------

  ghost predicate IdsInSlot(batch: nat, E: Db, j: Pass, ids: set<nat>)
    requires batch > 0
  {
    j == CLEAR ==> FillsDown(Payments(E), batch, ids)
  }

  lemma SelectedIdsInSlot(batch: nat, y: int, E: Db, A: Db, hot: Db, archive: Db, j: Pass)
    requires batch > 0 && TablesOk(y, E, archive, hot, archive) && Slots(batch, E, A, hot, archive)
    ensures IdsInSlot(batch, E, j, NextIds(hot, DeleteTable(j), y, batch))
  {
    OnlyPayments(COPY, j);
    if j == CLEAR {
      EligiblePaymentsAreLeft(y, E, archive, hot, archive);
      SelectedFillsDown(Payments(E), batch, LeftIn(E, hot));
    }
  }

  /** What stays behind a selected batch is in a later slot. */
  lemma LeftIsLater(batch: nat, E: Db, hot: Db, ids: set<nat>, k: Key, i: nat)
    requires batch > 0 && DeleteBatch(batch, E, hot, CLEAR, ids) && FillsDown(Payments(E), batch, ids)
    requires Payment(E, k) && k in hot && k.id !in ids && i in ids
    ensures Down(Payments(E), batch, i) < Down(Payments(E), batch, k.id)
  {
    PaymentsAre(E, k);
    DownShrinks(Payments(E), batch, k.id, i);
  }

  lemma ChargeGoesToo(batch: nat, y: int, E: Db, A: Db, hot: Db, archive: Db, ids: set<nat>, k: Key, r: Key)
    requires batch > 0 && TablesOk(y, E, archive, hot, archive)
    requires DeleteBatch(batch, E, hot, CLEAR, ids) && FillsDown(Payments(E), batch, ids) && RefundsInSlots(batch, E, A)
    requires k in hot && k.table == r.table == Transactions && hot[k].self == Some(r.id) && r.id in ids
    ensures k.id in ids
  {
    ChargeOfSelected(batch, y, E, archive, hot, archive, ids, k, r);
    assert DeletedInTime(batch, E, k, r);
    if k.id !in ids { LeftIsLater(batch, E, hot, ids, k, r.id); }
  }

  lemma InSlotsIsDeletable(batch: nat, y: int, E: Db, A: Db, hot: Db, archive: Db, j: Pass, ids: set<nat>)
    requires batch > 0 && ClosedFamilies(E) && TablesOk(y, E, archive, hot, archive)
    requires ReadyToDelete(E, hot, archive, j) && DeleteBatch(batch, E, hot, j, ids) && IdsInSlot(batch, E, j, ids)
    requires RefundsInSlots(batch, E, A)
    ensures DeleteAccepted(hot, KeysOf(DeleteTable(j), ids))
  {
    OnlyPayments(COPY, j);
    DeleteVerdict(batch, y, E, archive, hot, archive, j, ids);
    if j == CLEAR { AllChargesGoToo(batch, y, E, A, hot, archive, ids); }
  }

  lemma AllChargesGoToo(batch: nat, y: int, E: Db, A: Db, hot: Db, archive: Db, ids: set<nat>)
    requires batch > 0 && TablesOk(y, E, archive, hot, archive)
    requires DeleteBatch(batch, E, hot, CLEAR, ids) && FillsDown(Payments(E), batch, ids) && RefundsInSlots(batch, E, A)
    ensures ChargesGoToo(hot, KeysOf(Transactions, ids))
  {
    var ks := KeysOf(Transactions, ids);
    forall k | k in hot && k !in ks && k.table == Transactions && hot[k].self.Some?
      ensures Key(Transactions, hot[k].self.value) !in ks
    {
      var r := Key(Transactions, hot[k].self.value);
      if r in ks { ChargeGoesToo(batch, y, E, A, hot, archive, ids, k, r); }
    }
  }

  lemma ChargeOfSelected(batch: nat, y: int, E: Db, A: Db, hot: Db, archive: Db, ids: set<nat>, k: Key, r: Key)
    requires TablesOk(y, E, A, hot, archive) && DeleteBatch(batch, E, hot, CLEAR, ids)
    requires k in hot && k.table == r.table == Transactions && hot[k].self == Some(r.id) && r.id in ids
    ensures Refunds(E, k, r)
  {
    assert r in Refs(k, hot[k]) && r == Key(DeleteTable(CLEAR), r.id);
    FamiliesMoveTogether(hot, y, k, r);
  }

  lemma LeftAfterDelete(E: Db, hot: Db, ids: set<nat>)
    ensures LeftIn(E, hot - KeysOf(Transactions, ids)) == LeftIn(E, hot) - ids
  {
    var hot' := hot - KeysOf(Transactions, ids);
    forall i: nat ensures i in LeftIn(E, hot') <==> i in LeftIn(E, hot) - ids {
      if i >= 1 {
        LeftInIs(E, hot', Key(Transactions, i));
        LeftInIs(E, hot, Key(Transactions, i));
      }
    }
  }

  lemma GoneFromTheTopAgain(batch: nat, E: Db, hot: Db, ids: set<nat>)
    requires batch > 0 && GoneFromTheTop(Payments(E), batch, LeftIn(E, hot))
    requires DeleteBatch(batch, E, hot, CLEAR, ids) && FillsDown(Payments(E), batch, ids)
    ensures GoneFromTheTop(Payments(E), batch, LeftIn(E, hot) - ids)
  {
    var left := LeftIn(E, hot);
    forall t, u | t in left - ids && u in Payments(E) && u !in left - ids
      ensures Down(Payments(E), batch, u) < Down(Payments(E), batch, t)
    {
      if u in ids {
        LeftInIs(E, hot, Key(Transactions, t));
        LeftIsLater(batch, E, hot, ids, Key(Transactions, t), u);
      }
    }
  }

  lemma DeletedWasInTime(batch: nat, E: Db, hot: Db, ids: set<nat>, k: Key, r: Key)
    requires batch > 0 && ForeignKeysHold(E) && GoneFromTheTop(Payments(E), batch, LeftIn(E, hot))
    requires FillsDown(Payments(E), batch, ids) && Refunds(E, k, r) && r in hot && r.id in ids
    requires k in hot ==> k.id in ids
    ensures DeletedInTime(batch, E, k, r)
  {
    RefundIsThere(E, k, r);
    PaymentsAre(E, k);
    PaymentsAre(E, r);
    LeftInIs(E, hot, k);
    LeftInIs(E, hot, r);
  }

  /** An accepted delete leaves no charge that names a deleted refund. */
  lemma AcceptedTakesCharges(E: Db, hot: Db, ids: set<nat>, k: Key, r: Key)
    requires DeleteAccepted(hot, KeysOf(Transactions, ids)) && DeleteRows(hot, KeysOf(Transactions, ids)) == hot - KeysOf(Transactions, ids)
    requires Refunds(E, k, r) && r.id in ids && k in hot && hot[k] == E[k]
    ensures k.id in ids
  {
    assert r in Refs(k, hot[k]);
  }

  lemma OtherDeletes(batch: nat, E: Db, A: Db, hot: Db, archive: Db, ks: set<Key>)
    requires batch > 0 && Slots(batch, E, A, hot, archive) && forall k :: k in ks ==> k.table != Transactions
    ensures Slots(batch, E, A, hot - ks, archive)
  {
    assert LeftIn(E, hot - ks) == LeftIn(E, hot);
  }

  lemma PaymentsAfterDelete(batch: nat, E: Db, A: Db, hot: Db, archive: Db, ids: set<nat>)
    requires batch > 0 && ForeignKeysHold(E) && Slots(batch, E, A, hot, archive) && AllCopied(E, archive)
    requires DeleteBatch(batch, E, hot, CLEAR, ids) && FillsDown(Payments(E), batch, ids)
    requires forall k :: k in E && k in hot ==> hot[k] == E[k]
    requires DeleteAccepted(hot, KeysOf(Transactions, ids)) && DeleteRows(hot, KeysOf(Transactions, ids)) == hot - KeysOf(Transactions, ids)
    ensures Slots(batch, E, A, hot - KeysOf(Transactions, ids), archive)
  {
    var ks := KeysOf(Transactions, ids);
    LeftAfterDelete(E, hot, ids);
    GoneFromTheTopAgain(batch, E, hot, ids);
    forall k, r | Refunds(E, k, r) && r !in hot - ks ensures DeletedInTime(batch, E, k, r) {
      if r in hot {
        if k in hot { AcceptedTakesCharges(E, hot, ids, k, r); }
        DeletedWasInTime(batch, E, hot, ids, k, r);
      }
    }
  }

  lemma SlotsAfterDelete(batch: nat, y: int, E: Db, A: Db, hot: Db, archive: Db, j: Pass, ids: set<nat>)
    requires batch > 0 && ClosedFamilies(E) && TablesOk(y, E, archive, hot, archive) && Slots(batch, E, A, hot, archive)
    requires ReadyToDelete(E, hot, archive, j) && DeleteBatch(batch, E, hot, j, ids) && IdsInSlot(batch, E, j, ids)
    requires DeleteAccepted(hot, KeysOf(DeleteTable(j), ids))
    ensures Slots(batch, E, A, hot - KeysOf(DeleteTable(j), ids), archive)
  {
    OnlyPayments(COPY, j);
    if j != CLEAR {
      OtherDeletes(batch, E, A, hot, archive, KeysOf(DeleteTable(j), ids));
    } else {
      DeleteVerdict(batch, y, E, archive, hot, archive, j, ids);
      ReadyIsArchived(E, archive);
      PaymentsAfterDelete(batch, E, A, hot, archive, ids);
    }
  }

  /** Once everything is copied and cleared, everything was in time. */
  lemma DoneWasInSlots(batch: nat, E: Db, A: Db, hot: Db, archive: Db)
    requires batch > 0 && ForeignKeysHold(E) && Slots(batch, E, A, hot, archive)
    requires AllCopied(E, archive) && forall k :: k in E ==> k !in hot
    ensures RefundsInSlots(batch, E, A)
  {
    forall k, r | Refunds(E, k, r) ensures CopiedInTime(batch, E, A, k, r) && DeletedInTime(batch, E, k, r) {
      RefundIsThere(E, k, r);
    }
  }
}
