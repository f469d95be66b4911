/** One batch of either archival pass (src/lib/jobs/archival.worker.ts): what it
    selects, when the foreign keys let it through, and what it leaves. */
module ArchivalBatches {
  import opened Prelude
  import opened ArchivalTables

  ghost predicate DeliveriesPointDown(db: Db) {
    forall k :: k in db && k.table == Deliveries && db[k].self.Some? ==> db[k].self.value < k.id
  }

  /** Every eligible row of the first i tables of pass 1 is archived. */
  ghost predicate Copied(E: Db, archive: Db, i: nat) {
    forall k | k in E && InsertIndex(k.table) < i :: k in archive
  }

  /** No eligible row of the first j tables of pass 2 is left in hot. */
  ghost predicate Cleared(E: Db, hot: Db, j: nat) {
    forall k | k in E && DeleteIndex(k.table) < j :: k !in hot
  }

  /** Whole families, deliveries pointing at lower ids. */
  ghost predicate ClosedFamilies(E: Db) {
    ForeignKeysHold(E) && SameFamily(E) && DeliveriesPointDown(E)
  }

  /** E: the rows that count as eligible, moved or not; A: the archive at the start. */
  ghost predicate TablesOk(cutoff: int, E: Db, A: Db, hot: Db, archive: Db) {
    && ForeignKeysHold(hot) && SameFamily(hot) && ForeignKeysHold(archive)
    && (forall k :: k in hot ==> (Eligible(hot, k, cutoff) <==> k in E))
    && (forall k :: k in hot && k in E ==> hot[k] == E[k])
    && (forall k :: k in E ==> k in hot || k in archive)
    && (forall k :: k in E && k in archive ==> archive[k] == Archived(E[k]))
    && (forall k :: k in archive && k !in E ==> k in A)
    && (forall k :: k in A ==> k in archive && archive[k] == A[k])
  }

  /** A selected insert batch: eligible rows of one table, none skipped. */
  ghost predicate InsertBatch(batch: nat, E: Db, archive: Db, i: Pass, rows: Db) {
    && (forall k :: k in rows ==> k in E && rows[k] == E[k] && k.table == InsertTable(i))
    && (forall k, e | k in rows && e in E && e.table == InsertTable(i) && e.id <= k.id :: e in archive || e in rows)
    && (|rows| < batch ==> forall e | e in E && e.table == InsertTable(i) :: e in archive || e in rows)
  }

  /** A selected delete batch: the eligible rows of highest id still in hot. */
  ghost predicate DeleteBatch(batch: nat, E: Db, hot: Db, j: Pass, ids: set<nat>) {
    && (forall i :: i in ids ==> i >= 1 && Key(DeleteTable(j), i) in E)
    && (forall i, e | i in ids && e in E && e in hot && e.table == DeleteTable(j) && e.id >= i :: e.id in ids)
    && (|ids| < batch ==> forall e | e in E && e in hot && e.table == DeleteTable(j) :: e.id in ids)
  }

  ghost predicate ReadyToDelete(E: Db, hot: Db, archive: Db, j: nat) {
    Copied(E, archive, TABLES) && Cleared(E, hot, j)
  }

  ghost predicate CopiedUpTo(E: Db, archive: Db, i: Pass, cursor: nat) {
    && Copied(E, archive, i)
    && forall e | e in E && e.table == InsertTable(i) && e.id <= cursor :: e in archive
  }

  // ---- pass 1: select, verdict, commit --------------------------------------

  lemma SelectInsert(batch: nat, cutoff: int, E: Db, A: Db, hot: Db, archive: Db, i: Pass, cursor: nat)
    requires batch > 0 && TablesOk(cutoff, E, A, hot, archive) && CopiedUpTo(E, archive, i, cursor)
    ensures var rows := NextRows(hot, InsertTable(i), cutoff, cursor, batch);
      && InsertBatch(batch, E, archive, i, rows)
      && (|rows| == 0 ==> Copied(E, archive, i + 1))
  {
    NextRowsAreFirst(hot, InsertTable(i), cutoff, cursor, batch);
    var rows := NextRows(hot, InsertTable(i), cutoff, cursor, batch);
    forall e | e in E && e.table == InsertTable(i) && e !in archive
      ensures EligibleIn(hot, InsertTable(i), cutoff, e) && e.id > cursor {}
    if |rows| == 0 {
      assert forall k :: k !in rows;
      TableDone(E, archive, i);
    }
  }

  lemma TableDone(E: Db, archive: Db, i: Pass)
    requires Copied(E, archive, i)
    requires forall e | e in E && e.table == InsertTable(i) :: e in archive
    ensures Copied(E, archive, i + 1)
  {
  }

  /** Every charge of the batch that names its refund finds that refund in the
      same batch or already archived. */
  ghost predicate RefundsResolved(archive: Db, rows: Db) {
    forall k :: k in rows && k !in archive && k.table == Transactions && rows[k].self.Some?
      ==> Key(Transactions, rows[k].self.value) in rows.Keys + archive.Keys
  }

  lemma EarlierDeliveryIsThere(batch: nat, E: Db, archive: Db, i: Pass, rows: Db, k: Key, t: Key)
    requires DeliveriesPointDown(E) && InsertBatch(batch, E, archive, i, rows)
    requires k in rows && k.table == t.table == Deliveries && t in E && E[k].self == Some(t.id)
    ensures t in rows || t in archive
  {
  }

  /** Every foreign key of a selected row other than a refund link resolves. */
  lemma ReferenceResolved(batch: nat, E: Db, archive: Db, i: Pass, rows: Db, k: Key, t: Key)
    requires ClosedFamilies(E) && Copied(E, archive, i) && InsertBatch(batch, E, archive, i, rows)
    requires k in rows && t in Refs(k, rows[k])
    requires k.table != Transactions || t.table != Transactions
    ensures t in rows || t in archive
  {
    assert k in E && rows[k] == E[k];
    assert t in E;
    hide ForeignKeysHold, SameFamily, DeliveriesPointDown;
    ParentsComeFirst(k, rows[k], t);
    hide Refs;
    if t.table == k.table { EarlierDeliveryIsThere(batch, E, archive, i, rows, k, t); }
  }

  lemma RefundLink(k: Key, r: Row, t: Key)
    requires k.table == Transactions && t.table == Transactions && t in Refs(k, r)
    ensures r.self == Some(t.id) && t == Key(Transactions, r.self.value)
  {
  }

  lemma ResolvedIsAccepted(batch: nat, E: Db, archive: Db, i: Pass, rows: Db)
    requires ClosedFamilies(E) && Copied(E, archive, i) && InsertBatch(batch, E, archive, i, rows)
    requires RefundsResolved(archive, rows)
    ensures InsertAccepted(archive, rows)
  {
    forall k, t | k in rows && k !in archive && t in Refs(k, rows[k])
      ensures t in rows.Keys + archive.Keys
    {
      if k.table == Transactions && t.table == Transactions {
        RefundLink(k, rows[k], t);
      } else {
        ReferenceResolved(batch, E, archive, i, rows, k, t);
      }
    }
  }

  /** The archive insert is accepted exactly when every refund link of the batch
      lands in the batch or in the archive; only transactions have such links. */
  lemma InsertVerdict(batch: nat, E: Db, archive: Db, i: Pass, rows: Db)
    requires ClosedFamilies(E) && Copied(E, archive, i) && InsertBatch(batch, E, archive, i, rows)
    ensures InsertAccepted(archive, rows) <==> RefundsResolved(archive, rows)
    ensures InsertTable(i) != Transactions ==> InsertAccepted(archive, rows)
  {
    if RefundsResolved(archive, rows) { ResolvedIsAccepted(batch, E, archive, i, rows); }
    if InsertAccepted(archive, rows) { AcceptedIsResolved(archive, rows); }
    if InsertTable(i) != Transactions {
      assert forall k :: k in rows ==> k.table != Transactions;
    }
  }

  lemma AcceptedIsResolved(archive: Db, rows: Db)
    requires InsertAccepted(archive, rows)
    ensures RefundsResolved(archive, rows)
  {
  }

  /** An accepted insert of eligible rows, whoever selected them. */
  lemma InsertKeepsTables(cutoff: int, E: Db, A: Db, hot: Db, archive: Db, rows: Db)
    requires TablesOk(cutoff, E, A, hot, archive) && InsertAccepted(archive, rows)
    requires forall k :: k in rows ==> k in E && rows[k] == E[k]
    ensures TablesOk(cutoff, E, A, hot, InsertIgnore(archive, rows))
  {
    ForeignKeysAfterInsert(archive, rows);
  }

  lemma CopiedAfterInsert(batch: nat, E: Db, archive: Db, i: Pass, rows: Batch)
    requires Copied(E, archive, i) && InsertBatch(batch, E, archive, i, rows)
    ensures var archive' := InsertIgnore(archive, rows);
      && CopiedUpTo(E, archive', i, LastId(rows))
      && (|rows| < batch ==> Copied(E, archive', i + 1))
  {
    var archive' := InsertIgnore(archive, rows);
    forall e | e in E && e.table == InsertTable(i) && e.id <= LastId(rows) ensures e in archive' {
      assert exists k :: k in rows && e.id <= k.id;
    }
    if |rows| < batch { TableDone(E, archive', i); }
  }

  // ---- pass 2: select, verdict, commit ----------------------------------------

  lemma SelectDelete(batch: nat, cutoff: int, E: Db, A: Db, hot: Db, archive: Db, j: Pass)
    requires batch > 0 && TablesOk(cutoff, E, A, hot, archive) && Cleared(E, hot, j)
    ensures var ids := NextIds(hot, DeleteTable(j), cutoff, batch);
      && DeleteBatch(batch, E, hot, j, ids)
      && (ids == {} ==> Cleared(E, hot, j + 1))
  {
    NextIdsAreLast(hot, DeleteTable(j), cutoff, batch);
    forall e | e in E && e.table == DeleteTable(j) && e in hot
      ensures EligibleIn(hot, DeleteTable(j), cutoff, e) {}
    if NextIds(hot, DeleteTable(j), cutoff, batch) == {} { TableEmpty(E, hot, j); }
  }

  lemma TableEmpty(E: Db, hot: Db, j: Pass)
    requires Cleared(E, hot, j)
    requires forall e | e in E && e.table == DeleteTable(j) :: e !in hot
    ensures Cleared(E, hot, j + 1)
  {
  }

  /** No child of a selected row is left: its table was cleared before. */
  lemma ChildrenAreGone(E: Db, hot: Db, j: Pass, k: Key, t: Key)
    requires Cleared(E, hot, j) && k in hot && k in E && t in Refs(k, hot[k])
    requires t.table == DeleteTable(j)
    ensures t.table == k.table
  {
    ParentsComeFirst(k, hot[k], t);
  }

  /** A delivery that points at a selected one has a higher id, so is selected too. */
  lemma LaterDeliveryIsSelected(batch: nat, E: Db, hot: Db, j: Pass, ids: set<nat>, k: Key, t: Key)
    requires DeliveriesPointDown(E) && DeleteBatch(batch, E, hot, j, ids)
    requires k in hot && k in E && hot[k] == E[k] && k.table == Deliveries == DeleteTable(j)
    requires t.id in ids && E[k].self == Some(t.id)
    ensures k.id in ids
  {
  }

  /** Every surviving row that points at a deleted one is a charge whose refund
      was deleted before it. */
  lemma NothingPointsIn(batch: nat, cutoff: int, E: Db, A: Db, hot: Db, archive: Db, j: Pass, ids: set<nat>, k: Key, t: Key)
    requires DeliveriesPointDown(E) && TablesOk(cutoff, E, A, hot, archive)
    requires Cleared(E, hot, j) && DeleteBatch(batch, E, hot, j, ids)
    requires k in hot && t in Refs(k, hot[k])
    requires t in KeysOf(DeleteTable(j), ids) && k !in KeysOf(DeleteTable(j), ids)
    ensures k.table == t.table == Transactions
  {
    FamiliesMoveTogether(hot, cutoff, k, t);
    assert t == Key(DeleteTable(j), t.id);
    ChildrenAreGone(E, hot, j, k, t);
    ParentsComeFirst(k, hot[k], t);
    if k.table == Deliveries { LaterDeliveryIsSelected(batch, E, hot, j, ids, k, t); }
  }

  /** Every charge whose refund the batch deletes is deleted with it. */
  ghost predicate ChargesGoToo(hot: Db, ks: set<Key>) {
    forall k :: k in hot && k !in ks && k.table == Transactions && hot[k].self.Some?
      ==> Key(Transactions, hot[k].self.value) !in ks
  }

  lemma NothingCascades(batch: nat, cutoff: int, E: Db, A: Db, hot: Db, archive: Db, j: Pass, ids: set<nat>)
    requires DeliveriesPointDown(E) && TablesOk(cutoff, E, A, hot, archive)
    requires Cleared(E, hot, j) && DeleteBatch(batch, E, hot, j, ids)
    ensures var ks := KeysOf(DeleteTable(j), ids);
      Cascade(hot, ks) == {} && DeleteRows(hot, ks) == hot - ks
  {
    var ks := KeysOf(DeleteTable(j), ids);
    if k :| k in Cascade(hot, ks) {
      var t := Key(Orders, hot[k].order.value);
      assert t in Refs(k, hot[k]) && k !in ks;
      NothingPointsIn(batch, cutoff, E, A, hot, archive, j, ids, k, t);
    }
    assert ks + Cascade(hot, ks) == ks;
  }

  lemma OnlyChargesPointIn(batch: nat, cutoff: int, E: Db, A: Db, hot: Db, archive: Db, j: Pass, ids: set<nat>)
    requires DeliveriesPointDown(E) && TablesOk(cutoff, E, A, hot, archive)
    requires Cleared(E, hot, j) && DeleteBatch(batch, E, hot, j, ids)
    ensures var ks := KeysOf(DeleteTable(j), ids);
      (ChargesGoToo(hot, ks) || DeleteTable(j) != Transactions) ==>
        forall k :: k in hot && k !in ks ==> Refs(k, hot[k]) !! ks
  {
    var ks := KeysOf(DeleteTable(j), ids);
    if ChargesGoToo(hot, ks) || DeleteTable(j) != Transactions {
      forall k, t | k in hot && k !in ks && t in Refs(k, hot[k]) ensures t !in ks {
        if t in ks {
          NothingPointsIn(batch, cutoff, E, A, hot, archive, j, ids, k, t);
          RefundLink(k, hot[k], t);
        }
      }
    }
  }

  lemma LinksAreReferences(hot: Db, ks: set<Key>)
    requires forall k :: k in hot && k !in ks ==> Refs(k, hot[k]) !! ks
    ensures ChargesGoToo(hot, ks)
  {
  }

  /** The hot delete removes just the selected ids, and is accepted exactly when
      it leaves no charge behind whose refund it deletes. */
  lemma DeleteVerdict(batch: nat, cutoff: int, E: Db, A: Db, hot: Db, archive: Db, j: Pass, ids: set<nat>)
    requires DeliveriesPointDown(E) && TablesOk(cutoff, E, A, hot, archive)
    requires Cleared(E, hot, j) && DeleteBatch(batch, E, hot, j, ids)
    ensures var ks := KeysOf(DeleteTable(j), ids);
      && DeleteRows(hot, ks) == hot - ks && ks <= E.Keys
      && (DeleteAccepted(hot, ks) <==> ChargesGoToo(hot, ks))
      && (DeleteTable(j) != Transactions ==> DeleteAccepted(hot, ks))
  {
    var ks := KeysOf(DeleteTable(j), ids);
    NothingCascades(batch, cutoff, E, A, hot, archive, j, ids);
    forall k | k in ks ensures k in E { assert k == Key(DeleteTable(j), k.id); }
    assert ks + Cascade(hot, ks) == ks;
    OnlyChargesPointIn(batch, cutoff, E, A, hot, archive, j, ids);
    if DeleteAccepted(hot, ks) { LinksAreReferences(hot, ks); }
  }

  lemma StillEligible(cutoff: int, hot: Db, ks: set<Key>, k: Key)
    requires ForeignKeysHold(hot - ks) && k in hot && k !in ks
    ensures Eligible(hot - ks, k, cutoff) <==> Eligible(hot, k, cutoff)
  {
    if hot[k].order.Some? && k.table != Orders && k.table != WebhookEvents {
      assert Key(Orders, hot[k].order.value) in Refs(k, (hot - ks)[k]);
    }
  }

  /** An accepted delete of archived eligible rows, whoever selected them. */
  lemma DeleteKeepsTables(cutoff: int, E: Db, A: Db, hot: Db, archive: Db, ks: set<Key>)
    requires TablesOk(cutoff, E, A, hot, archive) && DeleteAccepted(hot, ks) && DeleteRows(hot, ks) == hot - ks
    requires forall k :: k in ks ==> k in E && k in archive
    ensures TablesOk(cutoff, E, A, hot - ks, archive)
  {
    ForeignKeysAfterDelete(hot, ks);
    forall k | k in hot - ks ensures Eligible(hot - ks, k, cutoff) <==> Eligible(hot, k, cutoff) {
      StillEligible(cutoff, hot, ks, k);
    }
  }

  lemma ClearedAfterDelete(batch: nat, E: Db, hot: Db, j: Pass, ids: set<nat>)
    requires Cleared(E, hot, j) && DeleteBatch(batch, E, hot, j, ids)
    ensures var hot' := hot - KeysOf(DeleteTable(j), ids);
      Cleared(E, hot', j) && (|ids| < batch ==> Cleared(E, hot', j + 1))
  {
    if |ids| < batch { TableEmpty(E, hot - KeysOf(DeleteTable(j), ids), j); }
  }

  lemma ReadyIsArchived(E: Db, archive: Db)
    requires Copied(E, archive, TABLES)
    ensures forall k :: k in E ==> k in archive
  {
    forall k | k in E ensures k in archive { assert InsertIndex(k.table) < TABLES; }
  }

  /** The archive after the insert committed or was rolled back. */
  function ArchiveAfter(archive: Db, rows: Db): Db {
    if InsertAccepted(archive, rows) then InsertIgnore(archive, rows) else archive
  }

  /** One full iteration of runInsertPass. */
  lemma InsertIteration(batch: nat, cutoff: int, E: Db, A: Db, hot: Db, archive: Db, i: Pass, cursor: nat)
    requires batch > 0 && ClosedFamilies(E) && TablesOk(cutoff, E, A, hot, archive)
    requires CopiedUpTo(E, archive, i, cursor)
    ensures var rows := NextRows(hot, InsertTable(i), cutoff, cursor, batch);
            var archive' := ArchiveAfter(archive, rows);
      && TablesOk(cutoff, E, A, hot, archive')
      && (InsertTable(i) != Transactions ==> InsertAccepted(archive, rows))
      && (InsertAccepted(archive, rows) && |rows| < batch ==> Copied(E, archive', i + 1))
      && (InsertAccepted(archive, rows) && |rows| >= batch ==> CopiedUpTo(E, archive', i, LastId(rows)))
  {
    var rows := NextRows(hot, InsertTable(i), cutoff, cursor, batch);
    SelectInsert(batch, cutoff, E, A, hot, archive, i, cursor);
    InsertVerdict(batch, E, archive, i, rows);
    if |rows| > 0 && InsertAccepted(archive, rows) {
      InsertKeepsTables(cutoff, E, A, hot, archive, rows);
      CopiedAfterInsert(batch, E, archive, i, rows);
    } else if |rows| == 0 {
      NothingToInsert(archive, rows);
    }
  }

  lemma NothingToInsert(archive: Db, rows: Db)
    requires |rows| == 0
    ensures ArchiveAfter(archive, rows) == archive
  {
  }

  /** One full iteration of runDeletePass. */
  lemma DeleteIteration(batch: nat, cutoff: int, E: Db, A: Db, hot: Db, archive: Db, j: Pass)
    requires batch > 0 && ClosedFamilies(E) && TablesOk(cutoff, E, A, hot, archive)
    requires ReadyToDelete(E, hot, archive, j)
    ensures var ids := NextIds(hot, DeleteTable(j), cutoff, batch); var ks := KeysOf(DeleteTable(j), ids);
      && (ids == {} ==> Cleared(E, hot, j + 1))
      && (DeleteTable(j) != Transactions ==> DeleteAccepted(hot, ks))
      && DeleteRows(hot, ks) == hot - ks && ks <= E.Keys
      && (DeleteAccepted(hot, ks) ==>
            && TablesOk(cutoff, E, A, hot - ks, archive)
            && Cleared(E, hot - ks, j)
            && (|ids| < batch ==> Cleared(E, hot - ks, j + 1)))
  {
    var ids := NextIds(hot, DeleteTable(j), cutoff, batch);
    var ks := KeysOf(DeleteTable(j), ids);
    SelectDelete(batch, cutoff, E, A, hot, archive, j);
    DeleteVerdict(batch, cutoff, E, A, hot, archive, j, ids);
    if DeleteAccepted(hot, ks) {
      ReadyIsArchived(E, archive);
      DeleteKeepsTables(cutoff, E, A, hot, archive, ks);
      ClearedAfterDelete(batch, E, hot, j, ids);
    }
  }
}
