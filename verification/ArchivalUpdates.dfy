/** Late updates: what archival does to a change that another service makes to a row
    of a past year while the row is being moved. ON CONFLICT DO NOTHING keeps the
    older copy, and pass 2 deletes by id without looking at the row
    (src/lib/jobs/archival.worker.ts:125-132, :180-188). */
module ArchivalUpdates {
  import opened Prelude
  import opened ArchivalTables
  import opened ArchivalBatches
  import opened ArchivalRefunds
  import opened ArchivalProtocol
  import opened ArchivalRuns
  import opened ArchivalRejections
  import Theorems = ArchivalTheorems

  /** An update of a past-year row leaves its foreign keys and the timestamp that
      decides on its year alone. */
  predicate SameLinks(a: Row, b: Row) {
    a.stamp == b.stamp && a.order == b.order && a.self == b.self && a.delivery == b.delivery
  }

  function Change(db: Db, k: Key, row: Row): Db {
    if k in db then db[k := row] else db
  }

  function Updated(s: State, k: Key, row: Row): State {
    s.(hot := Change(s.hot, k, row))
  }

  /** No worker has read the row for copying, or copied it, yet. A caller can see that
      from the archive and the batches under way. */
  predicate Untaken(s: State, k: Key) {
    k !in s.archive && forall id :: id in s.workers ==> !Pending(s.workers[id].pc, k)
  }

  predicate Pending(pc: Pc, k: Key) {
    pc.InsertWrite? && k in pc.rows
  }

  // ---- an update of an untaken row keeps everything ---------------------------------

  predicate Changeable(db: Db, k: Key, row: Row) {
    k in db ==> SameLinks(row, db[k])
  }

  lemma SameEligible(db: Db, k: Key, row: Row, j: Key, y: int)
    requires Changeable(db, k, row) && j in db
    ensures Eligible(Change(db, k, row), j, y) <==> Eligible(db, j, y)
  {
  }

  lemma SameRefs(db: Db, k: Key, row: Row, j: Key)
    requires Changeable(db, k, row) && j in db
    ensures Refs(j, Change(db, k, row)[j]) == Refs(j, db[j])
  {
  }

  lemma ChangeKeepsKeys(db: Db, k: Key, row: Row)
    requires Changeable(db, k, row)
    ensures ForeignKeysHold(db) ==> ForeignKeysHold(Change(db, k, row))
    ensures SameFamily(db) ==> SameFamily(Change(db, k, row))
    ensures DeliveriesPointDown(db) ==> DeliveriesPointDown(Change(db, k, row))
  {
    forall j | j in db ensures Refs(j, Change(db, k, row)[j]) == Refs(j, db[j]) { SameRefs(db, k, row, j); }
  }

  lemma ChangeKeepsYear(db: Db, k: Key, row: Row, y: int)
    requires Changeable(db, k, row)
    ensures EligibleRows(Change(db, k, row), y) == Change(EligibleRows(db, y), k, row)
  {
    forall j | j in db ensures Eligible(Change(db, k, row), j, y) <==> Eligible(db, j, y) { SameEligible(db, k, row, j, y); }
  }

  lemma ChangeKeepsTables(y: int, E: Db, A: Db, hot: Db, archive: Db, k: Key, row: Row)
    requires TablesOk(y, E, A, hot, archive) && k in hot && SameLinks(row, hot[k]) && k !in archive
    ensures TablesOk(y, Change(E, k, row), A, Change(hot, k, row), archive)
  {
    ChangeKeepsKeys(hot, k, row);
    forall j | j in hot ensures Eligible(Change(hot, k, row), j, y) <==> Eligible(hot, j, y) { SameEligible(hot, k, row, j, y); }
  }

  lemma ChangeKeepsBatch(batch: nat, V: Db, archive: Db, i: Pass, rows: Db, k: Key, row: Row)
    requires InsertBatch(batch, V, archive, i, rows) && k !in rows
    ensures InsertBatch(batch, Change(V, k, row), archive, i, rows)
  {
  }

  lemma ChangeKeepsIds(batch: nat, V: Db, hot: Db, j: Pass, ids: set<nat>, k: Key, row: Row)
    requires DeleteBatch(batch, V, hot, j, ids)
    ensures DeleteBatch(batch, Change(V, k, row), Change(hot, k, row), j, ids)
  {
  }

  lemma ChangeKeepsProgress(V: Db, hot: Db, archive: Db, i: nat, cursor: nat, k: Key, row: Row)
    ensures Copied(V, archive, i) ==> Copied(Change(V, k, row), archive, i)
    ensures i < TABLES && CopiedUpTo(V, archive, i, cursor) ==> CopiedUpTo(Change(V, k, row), archive, i, cursor)
    ensures ReadyToDelete(V, hot, archive, i) ==> ReadyToDelete(Change(V, k, row), Change(hot, k, row), archive, i)
  {
  }

  lemma UntakenPcOk(batch: nat, y: int, V: Db, hot: Db, archive: Db, w: Worker, k: Key, row: Row)
    requires PcOk(batch, y, V, hot, archive, w) && !Pending(w.pc, k)
    ensures PcOk(batch, y, Change(V, k, row), Change(hot, k, row), archive, w)
  {
    hide Copied, CopiedUpTo, ReadyToDelete, InsertBatch, DeleteBatch, Change;
    match w.pc
    case Stopped =>
    case ForInsert(i) => ChangeKeepsProgress(V, hot, archive, i, 0, k, row);
    case InsertLoop(i, cursor) => ChangeKeepsProgress(V, hot, archive, i, cursor, k, row);
    case InsertRead(i, cursor) => ChangeKeepsProgress(V, hot, archive, i, cursor, k, row);
    case InsertWrite(i, rows) =>
      ChangeKeepsProgress(V, hot, archive, i, 0, k, row);
      ChangeKeepsBatch(batch, V, archive, i, rows, k, row);
    case ForDelete(j) => ChangeKeepsProgress(V, hot, archive, j, 0, k, row);
    case DeleteLoop(j) => ChangeKeepsProgress(V, hot, archive, j, 0, k, row);
    case DeleteRead(j) => ChangeKeepsProgress(V, hot, archive, j, 0, k, row);
    case DeleteWrite(j, ids) =>
      ChangeKeepsProgress(V, hot, archive, j, 0, k, row);
      ChangeKeepsIds(batch, V, hot, j, ids, k, row);
    case Finished => ChangeKeepsProgress(V, hot, archive, TABLES, 0, k, row);
  }

  lemma UntakenWorkerOk(c: Config, E: Db, hot: Db, archive: Db, now: int, w: Worker, k: Key, row: Row)
    requires WorkerOk(c, E, hot, archive, now, w) && Changeable(E, k, row) && !Pending(w.pc, k)
    ensures WorkerOk(c, Change(E, k, row), Change(hot, k, row), archive, now, w)
  {
    ChangeKeepsYear(E, k, row, c.yearStart(w.launched));
    hide PcOk, EligibleRows;
    UntakenPcOk(c.batch, c.yearStart(w.launched), Due(c, E, w), hot, archive, w, k, row);
  }

  /** The rows to move change with the update; whatever a worker knows stays true. */
  lemma UpdateKeeps(c: Config, E: Db, A: Db, s: State, k: Key, row: Row)
    requires Inv(c, E, A, s) && k in s.hot && SameLinks(row, s.hot[k]) && Untaken(s, k)
    ensures Inv(c, Change(E, k, row), A, Updated(s, k, row))
  {
    ChangeKeepsTables(c.yearStart(s.now), E, A, s.hot, s.archive, k, row);
    ChangeKeepsKeys(E, k, row);
    ChangeKeepsKeys(s.hot, k, row);
    ChangeKeepsYear(E, k, row, c.yearStart(s.now));
    forall id | id in s.workers
      ensures WorkerOk(c, Change(E, k, row), Change(s.hot, k, row), s.archive, s.now, s.workers[id])
    {
      UntakenWorkerOk(c, E, s.hot, s.archive, s.now, s.workers[id], k, row);
    }
  }

  // ---- histories with updates -----------------------------------------------------------

  datatype Move = Act(action: Action) | Update(k: Key, row: Row)

  /** Any step of the protocol, every run launched fitting into its year; or an update
      of an untaken row. */
  ghost predicate Careful(c: Config, s: State, m: Move) {
    match m
    case Act(a) => Calm(c, s, a) && (a.Launch? ==> InOneYear(c, s.now, s.now + a.budget))
    case Update(k, row) => k in s.hot && SameLinks(row, s.hot[k]) && Untaken(s, k)
  }

  function After(c: Config, s: State, m: Move): State
    requires m.Act? && m.action.Advance? ==> m.action.w in s.workers
  {
    match m
    case Act(a) => Applied(c, s, a)
    case Update(k, row) => Updated(s, k, row)
  }

  ghost predicate IsHistory(c: Config, trace: seq<State>, moves: seq<Move>) {
    && |trace| == |moves| + 1
    && Initial(c, trace[0])
    && forall n {:trigger moves[n]} | 0 <= n < |moves| ::
         Careful(c, trace[n], moves[n]) && trace[n + 1] == After(c, trace[n], moves[n])
  }

  lemma MoveOf(c: Config, trace: seq<State>, moves: seq<Move>, n: nat)
    requires IsHistory(c, trace, moves) && 0 < n < |trace|
    ensures |trace| == |moves| + 1 && Careful(c, trace[n - 1], moves[n - 1])
    ensures trace[n] == After(c, trace[n - 1], moves[n - 1])
  {
    var m := n - 1;
    assert trace[m + 1] == After(c, trace[m], moves[m]);
  }

  lemma MoveKeeps(c: Config, E: Db, A: Db, s: State, m: Move) returns (E': Db)
    requires Inv(c, E, A, s) && Careful(c, s, m)
    ensures Inv(c, E', A, After(c, s, m))
    ensures forall k :: k in E && !(m.Update? && m.k == k) ==> k in E' && E'[k] == E[k]
  {
    match m
    case Act(a) =>
      E' := Grown(c, E, Applied(c, s, a));
      EveryStepKeeps(c, E, A, s, a);
    case Update(k, row) =>
      E' := Change(E, k, row);
      UpdateKeeps(c, E, A, s, k, row);
  }

  lemma {:induction false} HistoryKeeps(c: Config, trace: seq<State>, moves: seq<Move>, n: nat) returns (E: Db)
    requires IsHistory(c, trace, moves) && n < |trace|
    ensures Inv(c, E, trace[0].archive, trace[n])
  {
    if n == 0 {
      InitialOk(c, trace[0]);
      E := EligibleRows(trace[0].hot, c.yearStart(trace[0].now));
    } else {
      hide *;
      MoveOf(c, trace, moves, n);
      E := HistoryKeeps(c, trace, moves, n - 1);
      E := MoveKeeps(c, E, trace[0].archive, trace[n - 1], moves[n - 1]);
    }
  }

  /** Nobody updates the row from m to n. */
  ghost predicate LeftAsIs(moves: seq<Move>, m: nat, n: nat, k: Key) {
    forall i {:trigger moves[i]} :: m <= i < n && i < |moves| && moves[i].Update? ==> moves[i].k != k
  }

  lemma {:induction false} StillDue(c: Config, trace: seq<State>, moves: seq<Move>, m: nat, n: nat, k: Key, E: Db)
    returns (E': Db)
    requires IsHistory(c, trace, moves) && m <= n < |trace| && LeftAsIs(moves, m, n, k)
    requires Inv(c, E, trace[0].archive, trace[m]) && k in E
    ensures Inv(c, E', trace[0].archive, trace[n]) && k in E' && E'[k] == E[k]
  {
    hide IsHistory, Inv, Careful, After;
    if m == n {
      E' := E;
    } else {
      MoveOf(c, trace, moves, n);
      E' := StillDue(c, trace, moves, m, n - 1, k, E);
      E' := MoveKeeps(c, E', trace[0].archive, trace[n - 1], moves[n - 1]);
    }
  }

  /** With any number of updates of rows not taken yet, over any number of years, runs
      and kills: the last version of a row of a past year is never lost. */
  lemma LastVersionIsKept(c: Config, trace: seq<State>, moves: seq<Move>, m: nat, n: nat, k: Key)
    requires IsHistory(c, trace, moves) && m <= n < |trace| && LeftAsIs(moves, m, n, k)
    requires k in trace[m].hot && Eligible(trace[m].hot, k, c.yearStart(trace[m].now))
    ensures Kept(k, trace[m].hot[k], trace[n])
  {
    var E := HistoryKeeps(c, trace, moves, m);
    DueIsKept(c, E, trace[0].archive, trace[m], k);
    var E' := StillDue(c, trace, moves, m, n, k, E);
    DueIsKept(c, E', trace[0].archive, trace[n], k);
  }

  lemma DueIsKept(c: Config, E: Db, A: Db, s: State, k: Key)
    requires Inv(c, E, A, s)
    ensures k in E ==> Kept(k, E[k], s)
    ensures k in s.hot && Eligible(s.hot, k, c.yearStart(s.now)) ==> k in E && E[k] == s.hot[k]
  {
  }

  // ---- an update of a row already taken ---------------------------------------------------

  /** Every run launched from here on fits into one year. */
  ghost predicate Fitting(c: Config, s: State, actions: seq<Action>)
    requires CanPlay(c, s, actions)
    decreases |actions|
  {
    actions == [] ||
    ((actions[0].Launch? ==> InOneYear(c, s.now, s.now + actions[0].budget)) && Fitting(c, Applied(c, s, actions[0]), actions[1..]))
  }

  /** Nothing that may happen from here on loses this version of the row. */
  ghost predicate NeverLost(c: Config, s: State, k: Key, row: Row) {
    forall actions {:trigger CanPlay(c, s, actions)} ::
      CanPlay(c, s, actions) && Fitting(c, s, actions) ==> Kept(k, row, End(c, s, actions))
  }

  lemma {:induction false} Onward(c: Config, E: Db, A: Db, s: State, actions: seq<Action>, k: Key)
    requires Inv(c, E, A, s) && CanPlay(c, s, actions) && Fitting(c, s, actions) && k in E
    ensures Kept(k, E[k], End(c, s, actions))
    decreases |actions|
  {
    if actions == [] {
      DueIsKept(c, E, A, s, k);
    } else {
      hide Inv, Calm, Applied, Grown, Kept;
      EveryStepKeeps(c, E, A, s, actions[0]);
      Onward(c, Grown(c, E, Applied(c, s, actions[0])), A, Applied(c, s, actions[0]), actions[1..], k);
    }
  }

  lemma UntakenIsNeverLost(c: Config, E: Db, A: Db, s: State, k: Key, row: Row)
    requires Inv(c, E, A, s) && k in s.hot && k in E && SameLinks(row, s.hot[k]) && Untaken(s, k)
    ensures NeverLost(c, Updated(s, k, row), k, row)
  {
    UpdateKeeps(c, E, A, s, k, row);
    forall actions | CanPlay(c, Updated(s, k, row), actions) && Fitting(c, Updated(s, k, row), actions)
      ensures Kept(k, row, End(c, Updated(s, k, row), actions))
    {
      Onward(c, Change(E, k, row), A, Updated(s, k, row), actions, k);
    }
  }

  // ---- two runs side by side, one with the update -------------------------------------------

  /** Once the row is in the archive its content steers nothing: a worker does the same
      with and without the update. */
  function ChangedPc(pc: Pc, k: Key, row: Row): Pc {
    if Pending(pc, k) then InsertWrite(pc.i, ChangedBatch(pc.rows, k, row)) else pc
  }

  function ChangedBatch(rows: Batch, k: Key, row: Row): (r: Batch)
    requires k in rows
    ensures r == Change(rows, k, row)
  {
    assert k in rows[k := row];
    rows[k := row]
  }

  function Twin(s: State, w: nat, k: Key, row: Row): State
    requires w in s.workers
  {
    s.(hot := Change(s.hot, k, row), workers := s.workers[w := s.workers[w].(pc := ChangedPc(s.workers[w].pc, k, row))])
  }

  predicate TwinOk(s: State, w: nat, k: Key, row: Row) {
    && w in s.workers && k in s.archive && Changeable(s.hot, k, row)
    && (Pending(s.workers[w].pc, k) ==> SameLinks(row, s.workers[w].pc.rows[k]))
  }

  lemma SameIds(hot: Db, k: Key, row: Row, t: Table, y: int)
    requires Changeable(hot, k, row)
    ensures EligibleIds(Change(hot, k, row), t, y) == EligibleIds(hot, t, y)
  {
    forall j | j in hot ensures Eligible(Change(hot, k, row), j, y) <==> Eligible(hot, j, y) { SameEligible(hot, k, row, j, y); }
    EligibleIdsAre(hot, t, y);
    EligibleIdsAre(Change(hot, k, row), t, y);
  }

  lemma SameRows(hot: Db, k: Key, row: Row, t: Table, y: int, cursor: nat, size: nat)
    requires Changeable(hot, k, row)
    ensures NextRows(Change(hot, k, row), t, y, cursor, size) == Change(NextRows(hot, t, y, cursor, size), k, row)
  {
    SameIds(hot, k, row, t, y);
  }

  lemma SameSize(db: Db, k: Key, row: Row)
    ensures |Change(db, k, row)| == |db| && IdsOf(Change(db, k, row)) == IdsOf(db)
  {
    assert Change(db, k, row).Keys == db.Keys;
    assert |Change(db, k, row).Keys| == |db.Keys|;
  }

  lemma SameInsert(archive: Db, rows: Db, k: Key, row: Row)
    requires k in archive
    ensures InsertAccepted(archive, Change(rows, k, row)) == InsertAccepted(archive, rows)
    ensures InsertIgnore(archive, Change(rows, k, row)) == InsertIgnore(archive, rows)
  {
    assert Change(rows, k, row).Keys == rows.Keys;
  }

  lemma SameDelete(hot: Db, ks: set<Key>, k: Key, row: Row)
    requires Changeable(hot, k, row)
    ensures DeleteAccepted(Change(hot, k, row), ks) == DeleteAccepted(hot, ks)
    ensures DeleteRows(Change(hot, k, row), ks) == Change(DeleteRows(hot, ks), k, row)
  {
    assert Cascade(Change(hot, k, row), ks) == Cascade(hot, ks);
    forall j | j in hot ensures Refs(j, Change(hot, k, row)[j]) == Refs(j, hot[j]) { SameRefs(hot, k, row, j); }
  }

  lemma TwinGoto(s: State, w: nat, k: Key, row: Row, u: Worker)
    requires w in s.workers
    ensures Goto(Twin(s, w, k, row), w, u.(pc := ChangedPc(u.pc, k, row))) == Twin(Goto(s, w, u), w, k, row)
  {
  }

  function AfterRead(i: Pass, rows: Db): Pc {
    if |rows| == 0 then ForInsert(i + 1) else InsertWrite(i, rows)
  }

  lemma TwinAfterRead(i: Pass, rows: Db, k: Key, row: Row)
    ensures AfterRead(i, Change(rows, k, row)) == ChangedPc(AfterRead(i, rows), k, row)
  {
    SameSize(rows, k, row);
  }

  lemma ReadIs(c: Config, s: State, w: nat)
    requires w in s.workers && s.workers[w].pc.InsertRead?
    ensures var u := s.workers[w];
      Stepped(c, s, w) == Goto(s, w, u.(pc := AfterRead(u.pc.i, NextRows(s.hot, InsertTable(u.pc.i), u.cutoff, u.pc.cursor, c.batch))))
  {
  }

  lemma ReadLinks(hot: Db, k: Key, row: Row, t: Table, y: int, cursor: nat, size: nat)
    requires Changeable(hot, k, row)
    ensures Changeable(NextRows(hot, t, y, cursor, size), k, row)
  {
  }

  lemma TwinReads(c: Config, s: State, w: nat, k: Key, row: Row)
    requires TwinOk(s, w, k, row) && s.workers[w].pc.InsertRead?
    ensures Stepped(c, Twin(s, w, k, row), w) == Twin(Stepped(c, s, w), w, k, row)
    ensures TwinOk(Stepped(c, s, w), w, k, row)
  {
    var u := s.workers[w];
    var rows := NextRows(s.hot, InsertTable(u.pc.i), u.cutoff, u.pc.cursor, c.batch);
    hide Stepped, NextRows, Change, SameLinks, Refs;
    SameRows(s.hot, k, row, InsertTable(u.pc.i), u.cutoff, u.pc.cursor, c.batch);
    ReadLinks(s.hot, k, row, InsertTable(u.pc.i), u.cutoff, u.pc.cursor, c.batch);
    ReadIs(c, s, w);
    ReadIs(c, Twin(s, w, k, row), w);
    TwinAfterRead(u.pc.i, rows, k, row);
    TwinGoto(s, w, k, row, u.(pc := AfterRead(u.pc.i, rows)));
  }

  lemma SameAfterInsert(batch: nat, i: Pass, rows: Batch, rows': Batch, k: Key, row: Row)
    requires rows' == Change(rows, k, row)
    ensures AfterInsert(batch, i, rows') == AfterInsert(batch, i, rows)
    ensures !AfterInsert(batch, i, rows).InsertWrite?
  {
    SameSize(rows, k, row);
  }

  lemma InsertIs(c: Config, s: State, w: nat, i: Pass, rows: Batch)
    requires w in s.workers && s.workers[w].pc == InsertWrite(i, rows)
    ensures var u := s.workers[w];
      Stepped(c, s, w) == if InsertAccepted(s.archive, rows)
        then Goto(s.(archive := InsertIgnore(s.archive, rows)), w, u.(pc := AfterInsert(c.batch, i, rows)))
        else Goto(s, w, u.(pc := Stopped))
  {
  }

  lemma TwinPending(s: State, w: nat, k: Key, row: Row, i: Pass, rows: Batch) returns (rows': Batch)
    requires w in s.workers && s.workers[w].pc == InsertWrite(i, rows)
    ensures rows' == Change(rows, k, row) && Twin(s, w, k, row).workers[w].pc == InsertWrite(i, rows')
  {
    rows' := if k in rows then ChangedBatch(rows, k, row) else rows;
  }

  lemma TwinInserts(c: Config, s: State, w: nat, k: Key, row: Row)
    requires TwinOk(s, w, k, row) && s.workers[w].pc.InsertWrite?
    ensures Stepped(c, Twin(s, w, k, row), w) == Twin(Stepped(c, s, w), w, k, row)
    ensures TwinOk(Stepped(c, s, w), w, k, row)
  {
    hide Stepped, InsertAccepted, InsertIgnore, AfterInsert, Change, SameLinks, Refs;
    var u := s.workers[w];
    var i, rows := u.pc.i, u.pc.rows;
    var rows' := TwinPending(s, w, k, row, i, rows);
    SameInsert(s.archive, rows, k, row);
    InsertKeepsKey(s.archive, rows, k);
    SameAfterInsert(c.batch, i, rows, rows', k, row);
    InsertIs(c, s, w, i, rows);
    InsertIs(c, Twin(s, w, k, row), w, i, rows');
    TwinGoto(s.(archive := InsertIgnore(s.archive, rows)), w, k, row, u.(pc := AfterInsert(c.batch, i, rows)));
    TwinGoto(s, w, k, row, u.(pc := Stopped));
  }

  lemma InsertKeepsKey(archive: Db, rows: Db, k: Key)
    requires k in archive
    ensures k in InsertIgnore(archive, rows)
  {
  }

  lemma TwinSelects(c: Config, s: State, w: nat, k: Key, row: Row)
    requires TwinOk(s, w, k, row) && s.workers[w].pc.DeleteRead?
    ensures Stepped(c, Twin(s, w, k, row), w) == Twin(Stepped(c, s, w), w, k, row)
    ensures TwinOk(Stepped(c, s, w), w, k, row)
  {
    hide NextRows, InsertAccepted, InsertIgnore, DeleteAccepted, DeleteRows, Change;
    SameIds(s.hot, k, row, DeleteTable(s.workers[w].pc.j), s.workers[w].cutoff);
  }

  lemma DeleteKeepsLinks(hot: Db, ks: set<Key>, k: Key, row: Row)
    requires Changeable(hot, k, row)
    ensures Changeable(DeleteRows(hot, ks), k, row)
  {
  }

  function AfterDelete(batch: nat, j: Pass, ids: set<nat>): Pc {
    if |ids| < batch then ForDelete(j + 1) else DeleteLoop(j)
  }

  lemma DeleteIs(c: Config, s: State, w: nat, j: Pass, ids: set<nat>)
    requires w in s.workers && s.workers[w].pc == DeleteWrite(j, ids)
    ensures var u, ks := s.workers[w], KeysOf(DeleteTable(j), ids);
      Stepped(c, s, w) == if DeleteAccepted(s.hot, ks)
        then Goto(s.(hot := DeleteRows(s.hot, ks)), w, u.(pc := AfterDelete(c.batch, j, ids)))
        else Goto(s, w, u.(pc := Stopped))
  {
  }

  lemma TwinDeletes(c: Config, s: State, w: nat, k: Key, row: Row)
    requires TwinOk(s, w, k, row) && s.workers[w].pc.DeleteWrite?
    ensures Stepped(c, Twin(s, w, k, row), w) == Twin(Stepped(c, s, w), w, k, row)
    ensures TwinOk(Stepped(c, s, w), w, k, row)
  {
    var u := s.workers[w];
    var j, ids := u.pc.j, u.pc.ids;
    var ks := KeysOf(DeleteTable(j), ids);
    hide Stepped, KeysOf, DeleteAccepted, DeleteRows, Change, SameLinks;
    SameDelete(s.hot, ks, k, row);
    DeleteKeepsLinks(s.hot, ks, k, row);
    DeleteIs(c, s, w, j, ids);
    DeleteIs(c, Twin(s, w, k, row), w, j, ids);
    TwinGoto(s.(hot := DeleteRows(s.hot, ks)), w, k, row, u.(pc := AfterDelete(c.batch, j, ids)));
    TwinGoto(s, w, k, row, u.(pc := Stopped));
  }

  /** At a loop head a worker looks at the clock and at nothing else. */
  lemma SameHead(c: Config, s: State, t: State, w: nat)
    requires w in s.workers && w in t.workers && t.workers[w] == s.workers[w] && t.now == s.now
    requires AtLoopHead(s.workers[w].pc)
    ensures Stepped(c, t, w).workers[w] == Stepped(c, s, w).workers[w]
    ensures !Stepped(c, s, w).workers[w].pc.InsertWrite?
  {
    hide NextRows, NextIds, InsertAccepted, DeleteAccepted, Inserted, Deleted;
    var pc := s.workers[w].pc;
    if pc.ForInsert? {
    } else if pc.InsertLoop? {
    } else if pc.ForDelete? {
    } else if pc.DeleteLoop? {
    } else {
      assert pc.Stopped? || pc.Finished?;
    }
  }

  lemma TwinMoves(c: Config, s: State, w: nat, k: Key, row: Row)
    requires TwinOk(s, w, k, row) && AtLoopHead(s.workers[w].pc)
    ensures Stepped(c, Twin(s, w, k, row), w) == Twin(Stepped(c, s, w), w, k, row)
    ensures TwinOk(Stepped(c, s, w), w, k, row)
  {
    hide Change, SameLinks, Stepped;
    LoopHeadMoves(c, s, w);
    LoopHeadMoves(c, Twin(s, w, k, row), w);
    SameHead(c, s, Twin(s, w, k, row), w);
    TwinGoto(s, w, k, row, Stepped(c, s, w).workers[w]);
  }

  lemma TwinStep(c: Config, s: State, w: nat, k: Key, row: Row)
    requires TwinOk(s, w, k, row)
    ensures Stepped(c, Twin(s, w, k, row), w) == Twin(Stepped(c, s, w), w, k, row)
    ensures TwinOk(Stepped(c, s, w), w, k, row)
  {
    TwinOkHas(s, w, k, row);
    hide Stepped, Twin, TwinOk;
    var pc := s.workers[w].pc;
    if pc.InsertRead? { TwinReads(c, s, w, k, row); }
    else if pc.InsertWrite? { TwinInserts(c, s, w, k, row); }
    else if pc.DeleteRead? { TwinSelects(c, s, w, k, row); }
    else if pc.DeleteWrite? { TwinDeletes(c, s, w, k, row); }
    else { TwinMoves(c, s, w, k, row); }
  }

  lemma {:induction false} TwinRun(c: Config, s: State, w: nat, k: Key, row: Row, actions: seq<Action>)
    requires TwinOk(s, w, k, row) && OnlyAdvances(actions, w) && CanPlay(c, s, actions)
    ensures CanPlay(c, Twin(s, w, k, row), actions)
    ensures w in End(c, s, actions).workers
    ensures End(c, Twin(s, w, k, row), actions) == Twin(End(c, s, actions), w, k, row)
    decreases |actions|
  {
    if actions != [] {
      hide Stepped, TwinOk;
      assert w in s.workers by { TwinOkHas(s, w, k, row); }
      TwinStep(c, s, w, k, row);
      TwinRun(c, Stepped(c, s, w), w, k, row, actions[1..]);
    } else {
      assert w in s.workers;
    }
  }

  lemma TwinOkHas(s: State, w: nat, k: Key, row: Row)
    requires TwinOk(s, w, k, row)
    ensures w in s.workers && k in s.archive
  {
  }

  // ---- the exact condition ----------------------------------------------------------------

  /** In the year of the start, on data that archival gets through: E is what is due. */
  ghost predicate Live(c: Config, E: Db, A: Db, s: State) {
    && Inv(c, E, A, s) && c.batch > 0 && SlotInv(c, c.yearStart(s.now), E, A, s) && RefundsInSlots(c.batch, E, A)
  }

  lemma LiveStep(c: Config, E: Db, A: Db, s: State, a: Action)
    requires Live(c, E, A, s) && Calm(c, s, a) && !a.Tick? && (a.Launch? ==> InOneYear(c, s.now, s.now + a.budget))
    ensures Live(c, E, A, Applied(c, s, a))
  {
    hide SlotInv, PcOk, RefundsInSlots, TablesOk, ClosedFamilies;
    Theorems.SameClock(c, s, a);
    CallKeeps(c, E, A, s, a);
    ActionInSlots(c, c.yearStart(s.now), E, E, A, s, a);
  }

  lemma {:induction false} LiveRun(c: Config, E: Db, A: Db, s: State, w: nat, actions: seq<Action>)
    requires Live(c, E, A, s) && OnlyAdvances(actions, w) && CanPlay(c, s, actions)
    ensures Live(c, E, A, End(c, s, actions)) && Fitting(c, s, actions)
    decreases |actions|
  {
    if actions != [] {
      hide Live, Applied, Calm;
      LiveStep(c, E, A, s, actions[0]);
      LiveRun(c, E, A, Applied(c, s, actions[0]), w, actions[1..]);
    }
  }

  lemma LiveGivesInv(c: Config, E: Db, A: Db, s: State)
    requires Live(c, E, A, s)
    ensures Inv(c, E, A, s)
  {
  }

  /** A batch under way gets through. */
  lemma LivePasses(c: Config, E: Db, A: Db, s: State, id: nat)
    requires Live(c, E, A, s) && id in s.workers
    ensures Passes(s, s.workers[id].pc) && c.yearStart(s.workers[id].launched) == c.yearStart(s.now)
  {
    PassesInSlots(c, c.yearStart(s.now), E, E, A, s, id);
  }

  /** Once a worker of this year has come to its end, nothing due is left in hot. */
  lemma SettledIsEmpty(c: Config, E: Db, A: Db, s: State, id: nat, k: Key)
    requires Live(c, E, A, s) && Settled(s, id) && k in E
    ensures k !in s.hot
  {
    LivePasses(c, E, A, s, id);
    LiveGivesInv(c, E, A, s);
    hide Live, SlotInv;
    Theorems.CompletedState(c, E, A, s, id);
    assert EligibleRows(E, c.yearStart(s.now)) == E;
  }

  function FreshId(workers: map<nat, Worker>): (w: nat)
    ensures w !in workers
  {
    if workers.Keys == {} then 0 else Greatest(workers.Keys) + 1
  }

  lemma {:induction false} CopyStays(c: Config, s: State, actions: seq<Action>, k: Key)
    requires CanPlay(c, s, actions) && k in s.archive
    ensures k in End(c, s, actions).archive && End(c, s, actions).archive[k] == s.archive[k]
    decreases |actions|
  {
    if actions != [] {
      Theorems.ArchiveStep(c, s, actions[0]);
      CopyStays(c, Applied(c, s, actions[0]), actions[1..], k);
    }
  }

  /** The row was copied before the update: a worker launched now and left alone deletes
      the new version, and the archive keeps the old one. */
  lemma CopiedIsLost(c: Config, E: Db, A: Db, s: State, k: Key, row: Row) returns (actions: seq<Action>)
    requires Live(c, E, A, s) && k in s.hot && k in E && k in s.archive
    requires SameLinks(row, s.hot[k]) && Archived(row) != s.archive[k]
    ensures CanPlay(c, Updated(s, k, row), actions) && Fitting(c, Updated(s, k, row), actions)
    ensures !Kept(k, row, End(c, Updated(s, k, row), actions))
  {
    hide *;
    var w, t := FreshId(s.workers), Updated(s, k, row);
    var launch := Launch(w, 1);
    var s1 := Applied(c, s, launch);
    TwinLaunch(c, s, w, k, row);
    LiveStep(c, E, A, s, launch);
    LiveGivesInv(c, E, A, s1);
    var rest := LeftAlone(c, E, A, s1, w);
    LiveRun(c, E, A, s1, w, rest);
    TwinRun(c, s1, w, k, row, rest);
    CopyStays(c, s1, rest, k);
    SettledIsEmpty(c, E, A, End(c, s1, rest), w, k);
    TwinIsWithout(End(c, s1, rest), w, k, row);
    TwinFits(c, Twin(s1, w, k, row), w, rest);
    actions := FirstThen(c, t, launch, rest);
  }

  lemma TwinLaunch(c: Config, s: State, w: nat, k: Key, row: Row)
    requires w !in s.workers && k in s.archive && k in s.hot && SameLinks(row, s.hot[k])
    ensures var launch := Launch(w, 1); var s1 := Applied(c, s, launch);
      && Calm(c, s, launch) && Calm(c, Updated(s, k, row), launch) && InOneYear(c, s.now, s.now + 1)
      && Updated(s, k, row).now == s.now
      && s1.archive == s.archive && OnItsWay(s1, w) && TwinOk(s1, w, k, row)
      && Applied(c, Updated(s, k, row), launch) == Twin(s1, w, k, row)
  {
  }

  /** One action and then more. */
  lemma FirstThen(c: Config, s: State, a: Action, rest: seq<Action>) returns (actions: seq<Action>)
    requires Calm(c, s, a) && CanPlay(c, Applied(c, s, a), rest) && Fitting(c, Applied(c, s, a), rest)
    requires a.Launch? ==> InOneYear(c, s.now, s.now + a.budget)
    ensures CanPlay(c, s, actions) && Fitting(c, s, actions)
    ensures End(c, s, actions) == End(c, Applied(c, s, a), rest)
  {
    actions := [a] + rest;
    assert actions[1..] == rest;
  }

  /** A version that is neither in hot nor what the archive holds a copy of. */
  lemma TwinIsWithout(s: State, w: nat, k: Key, row: Row)
    requires w in s.workers && k !in s.hot && k in s.archive && s.archive[k] != Archived(row)
    ensures !Kept(k, row, Twin(s, w, k, row))
  {
  }

  lemma {:induction false} TwinFits(c: Config, s: State, w: nat, actions: seq<Action>)
    requires CanPlay(c, s, actions) && OnlyAdvances(actions, w)
    ensures Fitting(c, s, actions)
    decreases |actions|
  {
    if actions != [] { TwinFits(c, Applied(c, s, actions[0]), w, actions[1..]); }
  }

  /** The row is in a batch under way: that commits first, with the old version. */
  lemma PendingIsLost(c: Config, E: Db, A: Db, s: State, id: nat, k: Key, row: Row) returns (actions: seq<Action>)
    requires Live(c, E, A, s) && k in s.hot && k in E && k !in s.archive
    requires id in s.workers && Pending(s.workers[id].pc, k)
    requires SameLinks(row, s.hot[k]) && Archived(row) != Archived(s.hot[k])
    ensures CanPlay(c, Updated(s, k, row), actions) && Fitting(c, Updated(s, k, row), actions)
    ensures !Kept(k, row, End(c, Updated(s, k, row), actions))
  {
    hide *;
    var t, s1 := Updated(s, k, row), Stepped(c, s, id);
    AdvanceBoth(c, s, id, k, row);
    LiveGivesInv(c, E, A, s);
    LivePasses(c, E, A, s, id);
    LiveStep(c, E, A, s, Advance(id));
    CommitsCopy(c, E, A, s, id, k, row);
    var rest := CopiedIsLost(c, E, A, s1, k, row);
    actions := FirstThen(c, t, Advance(id), rest);
  }

  lemma AdvanceBoth(c: Config, s: State, id: nat, k: Key, row: Row)
    requires id in s.workers
    ensures Calm(c, s, Advance(id)) && Applied(c, s, Advance(id)) == Stepped(c, s, id)
    ensures var t := Updated(s, k, row);
      id in t.workers && Calm(c, t, Advance(id)) && Applied(c, t, Advance(id)) == Stepped(c, t, id)
  {
  }

  lemma CommitsCopy(c: Config, E: Db, A: Db, s: State, id: nat, k: Key, row: Row)
    requires Inv(c, E, A, s) && k in s.hot && k in E && k !in s.archive
    requires id in s.workers && Pending(s.workers[id].pc, k) && Passes(s, s.workers[id].pc)
    ensures var s1 := Stepped(c, s, id);
      && s1.hot == s.hot && k in s1.archive && s1.archive[k] == Archived(s.hot[k])
      && Stepped(c, Updated(s, k, row), id) == Updated(s1, k, row)
  {
    var pc := s.workers[id].pc;
    OwnYear(c, E, A, s, id);
    hide Inv, TablesOk, ClosedFamilies;
    InsertIs(c, s, id, pc.i, pc.rows);
    InsertIs(c, Updated(s, k, row), id, pc.i, pc.rows);
    hide Stepped;
  }

  /** For every moment of every run of the year, on data that archival gets through, and
      every update of a row due that shows in a copy: nothing that may happen afterwards
      loses the update exactly when no worker has taken the row. */
  lemma UpdateIsKeptIff(c: Config, trace: seq<State>, actions: seq<Action>, n: nat, k: Key, row: Row)
    requires IsRun(c, trace, actions) && LaunchesFit(c, trace, actions) && SameYear(c, trace, actions) && n < |trace|
    requires RefundsInSlots(c.batch, DueAt(c, trace[0]), trace[0].archive)
    requires c.yearStart(trace[n].now) == c.yearStart(trace[0].now)
    requires k in trace[n].hot && Eligible(trace[n].hot, k, c.yearStart(trace[n].now))
    requires SameLinks(row, trace[n].hot[k]) && Archived(row) != Archived(trace[n].hot[k])
    ensures NeverLost(c, Updated(trace[n], k, row), k, row) <==> Untaken(trace[n], k)
  {
    var s, A := trace[n], trace[0].archive;
    var E := Ever(c, trace, n);
    ReachedInSlots(c, trace, actions, n);
    DueIsKept(c, E, A, s, k);
    assert EligibleRows(E, c.yearStart(s.now)) == E;
    hide IsRun, LaunchesFit, SameYear;
    if Untaken(s, k) {
      UntakenIsNeverLost(c, E, A, s, k, row);
    } else if k in s.archive {
      assert s.archive[k] == Archived(E[k]);
      var loss := CopiedIsLost(c, E, A, s, k, row);
    } else {
      var id :| id in s.workers && Pending(s.workers[id].pc, k);
      var loss := PendingIsLost(c, E, A, s, id, k, row);
    }
  }
}
