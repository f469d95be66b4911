/** Cold archival as a protocol: any number of workers, each advancing one
    database statement at a time, interleaved with other writers, with clock
    ticks and with kills. The control points follow runArchivalOnce,
    runInsertPass and runDeletePass. */
module ArchivalProtocol {
  import opened Prelude
  import opened ArchivalTables
  import opened ArchivalBatches

  /** batch:     BATCH_SIZE
      yearStart: cutoffIso() as a function of the clock reading */
  datatype Config = Config(batch: nat, yearStart: int -> int)

  datatype Pc =
    | Stopped                              // not running, killed, or threw
    | ForInsert(next: nat)                   // head of the loop over PASS1_INSERT_ORDER
    | InsertLoop(i: Pass, cursor: nat)      // head of the while loop of runInsertPass
    | InsertRead(i: Pass, cursor: nat)      // about to SELECT the next batch
    | InsertWrite(i: Pass, rows: Batch)        // batch selected, INSERT not yet committed
    | ForDelete(next: nat)                   // head of the loop over PASS2_DELETE_ORDER
    | DeleteLoop(j: Pass)
    | DeleteRead(j: Pass)
    | DeleteWrite(j: Pass, ids: set<nat>)   // ids selected, DELETE not yet committed
    | Finished

  /** launched: the clock when the run began
      cutoff:   computed at the start of each table pass
      cut:      some budget check of this run answered "exceeded" */
  datatype Worker = Worker(pc: Pc, launched: int, deadline: int, cutoff: int, cut: bool)

  datatype State = State(hot: Db, archive: Db, now: int, workers: map<nat, Worker>)

  datatype Action =
    | Tick(elapsed: nat)
    | Launch(w: nat, budget: nat)
    | Kill(w: nat)
    | Advance(w: nat)
    | OtherWriters(hot: Db)

  predicate Exceeded(s: State, w: Worker) {
    s.now >= w.deadline
  }

  /** One step of one worker. */
  function Stepped(c: Config, s: State, id: nat): State
    requires id in s.workers
  {
    var w := s.workers[id];
    match w.pc
    case Stopped => s
    case Finished => s
    case ForInsert(i) =>
      if i >= TABLES then Goto(s, id, w.(pc := ForDelete(0)))
      else if Exceeded(s, w) then Goto(s, id, w.(pc := ForDelete(0), cut := true))
      else Goto(s, id, w.(pc := InsertLoop(i, 0), cutoff := c.yearStart(s.now)))
    case InsertLoop(i, cursor) =>
      if Exceeded(s, w) then Goto(s, id, w.(pc := ForInsert(i + 1), cut := true))
      else Goto(s, id, w.(pc := InsertRead(i, cursor)))
    case InsertRead(i, cursor) =>
      var rows := NextRows(s.hot, InsertTable(i), w.cutoff, cursor, c.batch);
      Goto(s, id, w.(pc := if |rows| == 0 then ForInsert(i + 1) else InsertWrite(i, rows)))
    case InsertWrite(i, rows) =>
      if InsertAccepted(s.archive, rows) then Inserted(c, s, id, i, rows) else Goto(s, id, w.(pc := Stopped))
    case ForDelete(j) =>
      if j >= TABLES then Goto(s, id, w.(pc := Finished))
      else if Exceeded(s, w) then Goto(s, id, w.(pc := Finished, cut := true))
      else Goto(s, id, w.(pc := DeleteLoop(j), cutoff := c.yearStart(s.now)))
    case DeleteLoop(j) =>
      if Exceeded(s, w) then Goto(s, id, w.(pc := ForDelete(j + 1), cut := true))
      else Goto(s, id, w.(pc := DeleteRead(j)))
    case DeleteRead(j) =>
      var ids := NextIds(s.hot, DeleteTable(j), w.cutoff, c.batch);
      Goto(s, id, w.(pc := if ids == {} then ForDelete(j + 1) else DeleteWrite(j, ids)))
    case DeleteWrite(j, ids) =>
      var ks := KeysOf(DeleteTable(j), ids);
      if DeleteAccepted(s.hot, ks) then Deleted(c, s, id, j, ids) else Goto(s, id, w.(pc := Stopped))
  }

  /** The insert committed; a short batch was the last one. */
  function Inserted(c: Config, s: State, id: nat, i: Pass, rows: Batch): State
    requires id in s.workers
  {
    Goto(s.(archive := InsertIgnore(s.archive, rows)), id,
         s.workers[id].(pc := AfterInsert(c.batch, i, rows)))
  }

  function AfterInsert(batch: nat, i: Pass, rows: Batch): Pc {
    if |rows| < batch then ForInsert(i + 1) else InsertLoop(i, LastId(rows))
  }

  /** The delete committed; a short batch was the last one. */
  function Deleted(c: Config, s: State, id: nat, j: Pass, ids: set<nat>): State
    requires id in s.workers
  {
    Goto(s.(hot := DeleteRows(s.hot, KeysOf(DeleteTable(j), ids))), id,
         s.workers[id].(pc := if |ids| < c.batch then ForDelete(j + 1) else DeleteLoop(j)))
  }

  function Goto(s: State, id: nat, w: Worker): State {
    s.(workers := s.workers[id := w])
  }

  function Applied(c: Config, s: State, a: Action): State
    requires a.Advance? ==> a.w in s.workers
  {
    match a
    case Tick(elapsed) => s.(now := s.now + elapsed)
    case Launch(w, budget) => Goto(s, w, Worker(ForInsert(0), s.now, s.now + budget, 0, false))
    case Kill(w) => if w in s.workers then Goto(s, w, s.workers[w].(pc := Stopped)) else s
    case Advance(w) => Stepped(c, s, w)
    case OtherWriters(hot) => s.(hot := hot)
  }

  /** What may happen: the clock moves forward, across as many years as it likes;
      workers are launched, advance and are killed anywhere; other writers keep the
      schema's constraints and their own habits, leave families of years that are
      over alone and never reuse an id. */
  ghost predicate Calm(c: Config, s: State, a: Action) {
    match a
    case Tick(_) => true
    case Launch(w, _) => w in s.workers ==> s.workers[w].pc.Stopped? || s.workers[w].pc.Finished?
    case Kill(_) => true
    case Advance(w) => w in s.workers
    case OtherWriters(hot) =>
      && ForeignKeysHold(hot) && SameFamily(hot) && DeliveriesPointDown(hot)
      && EligibleRows(hot, c.yearStart(s.now)) == EligibleRows(s.hot, c.yearStart(s.now))
      && forall k :: k in hot && k !in s.hot ==> k !in s.archive
  }

  /** Later readings of the clock lie in the same year or a later one. */
  ghost predicate Calendar(c: Config) {
    c.batch > 0 && forall s, t :: s <= t ==> c.yearStart(s) <= c.yearStart(t)
  }

  /** Before any worker runs: an archive that is empty, or as an earlier history
      left it (EveryMomentIsAStart below). */
  ghost predicate Initial(c: Config, s: State) {
    && Calendar(c)
    && s.workers == map[]
    && ForeignKeysHold(s.hot) && SameFamily(s.hot) && DeliveriesPointDown(s.hot)
    && ForeignKeysHold(s.archive)
    && forall k :: k in s.hot && k in s.archive ==>
         s.archive[k] == Archived(s.hot[k]) && Eligible(s.hot, k, c.yearStart(s.now))
  }

  /** A run: each state follows from the one before by one action. */
  ghost predicate IsRun(c: Config, trace: seq<State>, actions: seq<Action>) {
    && |trace| == |actions| + 1
    && Initial(c, trace[0])
    && forall n {:trigger actions[n]} | 0 <= n < |actions| ::
         Calm(c, trace[n], actions[n]) && trace[n + 1] == Applied(c, trace[n], actions[n])
  }

  /** From launch to the last moment before the deadline the year does not change.
      The budget is checked before each cutoff is computed, so all cutoffs of such
      a run are the same. */
  predicate InOneYear(c: Config, launched: int, deadline: int) {
    launched < deadline ==> c.yearStart(launched) == c.yearStart(deadline - 1)
  }

  /** Every run launched so far fits into one year. */
  ghost predicate LaunchesFit(c: Config, trace: seq<State>, actions: seq<Action>) {
    |trace| == |actions| + 1 &&
    forall n {:trigger actions[n]} | 0 <= n < |actions| && actions[n].Launch? ::
      InOneYear(c, trace[n].now, trace[n].now + actions[n].budget)
  }

  // ---- one year's rows among all of them ------------------------------------

  /** The rows of years before y keep their families whole. */
  lemma YearIsClosed(E: Db, y: int)
    requires ClosedFamilies(E)
    ensures ClosedFamilies(EligibleRows(E, y))
  {
    forall k, t | k in EligibleRows(E, y) && t in Refs(k, E[k]) ensures t in EligibleRows(E, y) {
      FamiliesMoveTogether(E, y, k, t);
    }
  }

  /** Two tables that agree on a row and on its order agree on its eligibility. */
  lemma SameVerdict(a: Db, b: Db, k: Key, y: int)
    requires ForeignKeysHold(a) && ForeignKeysHold(b) && k in a && k in b && a[k] == b[k]
    requires forall t :: t in Refs(k, a[k]) && t.table == Orders ==> t in a && t in b && a[t] == b[t]
    ensures Eligible(a, k, y) <==> Eligible(b, k, y)
  {
    if k.table != Orders && k.table != WebhookEvents && a[k].order.Some? {
      var o := Key(Orders, a[k].order.value);
      assert o in Refs(k, a[k]);
    }
  }

  lemma HotAgrees(cutoff: int, E: Db, A: Db, hot: Db, archive: Db, k: Key, y: int)
    requires ClosedFamilies(E) && TablesOk(cutoff, E, A, hot, archive) && k in hot && k in E
    ensures Eligible(hot, k, y) <==> Eligible(E, k, y)
  {
    forall t | t in Refs(k, hot[k]) && t.table == Orders ensures t in hot && t in E && hot[t] == E[t] {
      assert t in E;
    }
    SameVerdict(hot, E, k, y);
  }

  /** What holds of all rows of past years holds of those of earlier ones: this is
      what a worker whose cutoff is y deals with. */
  lemma YearView(cutoff: int, E: Db, A: Db, hot: Db, archive: Db, y: int)
    requires ClosedFamilies(E) && TablesOk(cutoff, E, A, hot, archive) && y <= cutoff
    ensures ClosedFamilies(EligibleRows(E, y))
    ensures TablesOk(y, EligibleRows(E, y), archive, hot, archive)
  {
    YearIsClosed(E, y);
    forall k | k in hot ensures Eligible(hot, k, y) <==> k in EligibleRows(E, y) {
      assert Eligible(hot, k, y) ==> Eligible(hot, k, cutoff);
      if k in E { HotAgrees(cutoff, E, A, hot, archive, k, y); }
    }
  }

  lemma YearsOverlap(cutoff: int, E: Db, A: Db, hot: Db, archive: Db, cutoff': int, k: Key)
    requires TablesOk(cutoff, E, A, hot, archive) && cutoff <= cutoff' && k in hot && k in E
    ensures k in EligibleRows(hot, cutoff') && hot[k] == E[k]
  {
    assert Eligible(hot, k, cutoff);
  }

  lemma NewYearTables(cutoff: int, E: Db, A: Db, hot: Db, archive: Db, cutoff': int)
    requires TablesOk(cutoff, E, A, hot, archive) && cutoff <= cutoff'
    requires forall k :: k in hot && k in archive ==> k in E
    ensures TablesOk(cutoff', E + EligibleRows(hot, cutoff'), A, hot, archive)
  {
    forall k | k in hot && k in E ensures k in EligibleRows(hot, cutoff') && hot[k] == E[k] {
      YearsOverlap(cutoff, E, A, hot, archive, cutoff', k);
    }
  }

  /** A new year adds the rows of the year just ended, and no earlier year's rows. */
  lemma NewYear(cutoff: int, E: Db, A: Db, hot: Db, archive: Db, cutoff': int)
    requires ClosedFamilies(E) && TablesOk(cutoff, E, A, hot, archive) && cutoff <= cutoff'
    requires DeliveriesPointDown(hot) && forall k :: k in hot && k in archive ==> k in E
    requires EligibleRows(E, cutoff) == E
    ensures var E' := E + EligibleRows(hot, cutoff');
      ClosedFamilies(E') && TablesOk(cutoff', E', A, hot, archive) && EligibleRows(E', cutoff') == E'
  {
    var N := EligibleRows(hot, cutoff');
    var E' := E + N;
    forall k | k in E && k in N ensures E[k] == N[k] { YearsOverlap(cutoff, E, A, hot, archive, cutoff', k); }
    NewYearTables(cutoff, E, A, hot, archive, cutoff');
    YearOfHot(hot, cutoff');
    hide TablesOk, ClosedFamilies;
    UnionIsClosed(E, N);
    forall k | k in E' ensures Eligible(E', k, cutoff') { StillPast(E, N, cutoff, cutoff', k); }
  }

  lemma StillPast(E: Db, N: Db, cutoff: int, cutoff': int, k: Key)
    requires ClosedFamilies(E) && ClosedFamilies(N) && cutoff <= cutoff' && (k in E || k in N)
    requires forall t :: t in E && t in N ==> E[t] == N[t]
    requires EligibleRows(E, cutoff) == E && EligibleRows(N, cutoff') == N
    ensures Eligible(E + N, k, cutoff')
  {
    UnionIsClosed(E, N);
    if k in E { assert Eligible(E, k, cutoff); SameVerdict(E, E + N, k, cutoff); }
    else { assert Eligible(N, k, cutoff'); SameVerdict(N, E + N, k, cutoff'); }
  }

  lemma UnionIsClosed(E: Db, N: Db)
    requires ClosedFamilies(E) && ClosedFamilies(N)
    requires forall k :: k in E && k in N ==> E[k] == N[k]
    ensures ClosedFamilies(E + N)
  {
  }

  lemma NewRowIsLater(cutoff: int, E: Db, A: Db, hot: Db, archive: Db, cutoff': int, y: int, k: Key)
    requires TablesOk(cutoff, E, A, hot, archive) && y <= cutoff <= cutoff'
    requires ClosedFamilies(E + EligibleRows(hot, cutoff')) && k in EligibleRows(hot, cutoff') && k !in E
    ensures !Eligible(E + EligibleRows(hot, cutoff'), k, y)
  {
    var E' := E + EligibleRows(hot, cutoff');
    assert k in hot && !Eligible(hot, k, cutoff);
    forall t | t in Refs(k, hot[k]) && t.table == Orders ensures t in hot && t in E' && hot[t] == E'[t] {
      FamiliesMoveTogether(hot, cutoff', k, t);
    }
    SameVerdict(hot, E', k, y);
  }

  lemma OldYearsStay(cutoff: int, E: Db, A: Db, hot: Db, archive: Db, cutoff': int, y: int)
    requires ClosedFamilies(E) && TablesOk(cutoff, E, A, hot, archive) && y <= cutoff <= cutoff'
    requires ClosedFamilies(E + EligibleRows(hot, cutoff'))
    ensures EligibleRows(E + EligibleRows(hot, cutoff'), y) == EligibleRows(E, y)
  {
    var N := EligibleRows(hot, cutoff');
    var E' := E + N;
    forall k | k in E ensures E'[k] == E[k] {
      if k in N { assert hot[k] == E[k]; }
    }
    forall k | k in E ensures Eligible(E', k, y) <==> Eligible(E, k, y) { SameVerdict(E, E', k, y); }
    forall k | k in E' && k !in E ensures !Eligible(E', k, y) { NewRowIsLater(cutoff, E, A, hot, archive, cutoff', y, k); }
  }

  /** Within a year there is nothing to add. */
  lemma NothingNew(cutoff: int, E: Db, A: Db, hot: Db, archive: Db)
    requires TablesOk(cutoff, E, A, hot, archive)
    ensures E + EligibleRows(hot, cutoff) == E
  {
  }

  // ---- the inductive invariant -------------------------------------------

  /** The rows a worker is to move. */
  function Due(c: Config, E: Db, w: Worker): Db {
    EligibleRows(E, c.yearStart(w.launched))
  }

  ghost predicate PcOk(batch: nat, y: int, V: Db, hot: Db, archive: Db, w: Worker) {
    match w.pc
    case Stopped => true
    case ForInsert(i) => i <= TABLES && (w.cut || Copied(V, archive, i))
    case InsertLoop(i, cursor) => !w.cut && w.cutoff == y && CopiedUpTo(V, archive, i, cursor)
    case InsertRead(i, cursor) => !w.cut && w.cutoff == y && CopiedUpTo(V, archive, i, cursor)
    case InsertWrite(i, rows) =>
      !w.cut && w.cutoff == y && Copied(V, archive, i) && InsertBatch(batch, V, archive, i, rows)
    case ForDelete(j) => j <= TABLES && (w.cut || ReadyToDelete(V, hot, archive, j))
    case DeleteLoop(j) => !w.cut && w.cutoff == y && ReadyToDelete(V, hot, archive, j)
    case DeleteRead(j) => !w.cut && w.cutoff == y && ReadyToDelete(V, hot, archive, j)
    case DeleteWrite(j, ids) =>
      !w.cut && w.cutoff == y && ReadyToDelete(V, hot, archive, j) && DeleteBatch(batch, V, hot, j, ids)
    case Finished => w.cut || ReadyToDelete(V, hot, archive, TABLES)
  }

  ghost predicate WorkerOk(c: Config, E: Db, hot: Db, archive: Db, now: int, w: Worker) {
    && w.launched <= now && InOneYear(c, w.launched, w.deadline)
    && (w.cut ==> now >= w.deadline)
    && PcOk(c.batch, c.yearStart(w.launched), Due(c, E, w), hot, archive, w)
  }

  /** E: every row that has been of a past year so far; A: the archive at the start. */
  ghost predicate RowsOk(c: Config, E: Db, A: Db, hot: Db, archive: Db, now: int) {
    && Calendar(c)
    && ClosedFamilies(E) && DeliveriesPointDown(hot)
    && EligibleRows(E, c.yearStart(now)) == E
    && TablesOk(c.yearStart(now), E, A, hot, archive)
    && forall k :: k in hot && k in archive ==> k in E
  }

  ghost predicate WorkersOk(c: Config, E: Db, s: State) {
    forall id :: id in s.workers ==> WorkerOk(c, E, s.hot, s.archive, s.now, s.workers[id])
  }

  ghost predicate Inv(c: Config, E: Db, A: Db, s: State) {
    RowsOk(c, E, A, s.hot, s.archive, s.now) && WorkersOk(c, E, s)
  }

  /** Nothing a worker knows is undone by anyone else. */
  lemma PcStaysOk(batch: nat, y: int, V: Db, hot: Db, archive: Db, hot': Db, archive': Db, w: Worker)
    requires PcOk(batch, y, V, hot, archive, w)
    requires forall k :: k in V && k in archive ==> k in archive'
    requires forall k :: k in V && k in hot' ==> k in hot
    ensures PcOk(batch, y, V, hot', archive', w)
  {
  }

  lemma WorkersDoNotInterfere(c: Config, E: Db, hot: Db, archive: Db, now: int,
                              hot': Db, archive': Db, now': int, w: Worker)
    requires WorkerOk(c, E, hot, archive, now, w) && now <= now'
    requires forall k :: k in E && k in archive ==> k in archive'
    requires forall k :: k in E && k in hot' ==> k in hot
    ensures WorkerOk(c, E, hot', archive', now', w)
  {
    PcStaysOk(c.batch, c.yearStart(w.launched), Due(c, E, w), hot, archive, hot', archive', w);
  }

  lemma InitialOk(c: Config, s: State)
    requires Initial(c, s)
    ensures Inv(c, EligibleRows(s.hot, c.yearStart(s.now)), s.archive, s)
  {
    YearOfHot(s.hot, c.yearStart(s.now));
  }

  lemma YearOfHot(hot: Db, y: int)
    requires ForeignKeysHold(hot) && SameFamily(hot) && DeliveriesPointDown(hot)
    ensures ClosedFamilies(EligibleRows(hot, y))
    ensures EligibleRows(EligibleRows(hot, y), y) == EligibleRows(hot, y)
  {
    var E := EligibleRows(hot, y);
    forall k, t | k in E && t in Refs(k, hot[k]) ensures t in E { FamiliesMoveTogether(hot, y, k, t); }
    forall k | k in E ensures Eligible(E, k, y) { SameVerdict(hot, E, k, y); }
  }

  // ---- every step keeps the invariant --------------------------------------

  /** A step that changes one worker and only makes progress. */
  lemma StepKeeps(c: Config, E: Db, A: Db, s: State, s': State, id: nat)
    requires Inv(c, E, A, s)
    requires id in s'.workers && s'.workers == s.workers[id := s'.workers[id]]
    requires s'.now == s.now && RowsOk(c, E, A, s'.hot, s'.archive, s'.now)
    requires forall k :: k in E && k in s.archive ==> k in s'.archive
    requires forall k :: k in E && k in s'.hot ==> k in s.hot
    requires WorkerOk(c, E, s'.hot, s'.archive, s'.now, s'.workers[id])
    ensures Inv(c, E, A, s')
  {
    forall o | o in s'.workers && o != id
      ensures WorkerOk(c, E, s'.hot, s'.archive, s'.now, s'.workers[o])
    {
      WorkersDoNotInterfere(c, E, s.hot, s.archive, s.now, s'.hot, s'.archive, s'.now, s.workers[o]);
    }
  }

  /** What a worker's own year looks like. */
  lemma OwnYear(c: Config, E: Db, A: Db, s: State, id: nat)
    requires Inv(c, E, A, s) && id in s.workers
    ensures var w := s.workers[id]; var y, V := c.yearStart(w.launched), Due(c, E, w);
      && ClosedFamilies(V) && TablesOk(y, V, s.archive, s.hot, s.archive)
      && PcOk(c.batch, y, V, s.hot, s.archive, w)
      && forall k :: k in V ==> k in E && V[k] == E[k]
  {
    var w := s.workers[id];
    assert WorkerOk(c, E, s.hot, s.archive, s.now, w);
    YearView(c.yearStart(s.now), E, A, s.hot, s.archive, c.yearStart(w.launched));
  }

  lemma InsertReadKeeps(c: Config, E: Db, A: Db, s: State, id: nat)
    requires Inv(c, E, A, s) && id in s.workers && s.workers[id].pc.InsertRead?
    ensures Inv(c, E, A, Stepped(c, s, id))
  {
    var w := s.workers[id];
    OwnYear(c, E, A, s, id);
    SelectInsert(c.batch, w.cutoff, Due(c, E, w), s.archive, s.hot, s.archive, w.pc.i, w.pc.cursor);
    StepKeeps(c, E, A, s, Stepped(c, s, id), id);
  }

  /** Nothing new is in both databases after a row is copied or removed. */
  lemma InsertKeepsRows(c: Config, E: Db, A: Db, hot: Db, archive: Db, now: int, rows: Db)
    requires RowsOk(c, E, A, hot, archive, now) && InsertAccepted(archive, rows)
    requires forall k :: k in rows ==> k in E && rows[k] == E[k]
    ensures RowsOk(c, E, A, hot, InsertIgnore(archive, rows), now)
  {
    InsertKeepsTables(c.yearStart(now), E, A, hot, archive, rows);
  }

  lemma DeleteKeepsRows(c: Config, E: Db, A: Db, hot: Db, archive: Db, now: int, ks: set<Key>)
    requires RowsOk(c, E, A, hot, archive, now) && DeleteAccepted(hot, ks) && DeleteRows(hot, ks) == hot - ks
    requires forall k :: k in ks ==> k in E && k in archive
    ensures RowsOk(c, E, A, hot - ks, archive, now)
  {
    DeleteKeepsTables(c.yearStart(now), E, A, hot, archive, ks);
  }

  lemma InsertedOk(c: Config, E: Db, hot: Db, archive: Db, now: int, w: Worker, i: Pass, rows: Batch)
    requires WorkerOk(c, E, hot, archive, now, w) && w.pc == InsertWrite(i, rows)
    ensures WorkerOk(c, E, hot, InsertIgnore(archive, rows), now, w.(pc := AfterInsert(c.batch, i, rows)))
  {
    CopiedAfterInsert(c.batch, Due(c, E, w), archive, i, rows);
  }

  lemma InsertedKeeps(c: Config, E: Db, A: Db, s: State, id: nat, i: Pass, rows: Batch)
    requires Inv(c, E, A, s) && id in s.workers && s.workers[id].pc == InsertWrite(i, rows)
    requires InsertAccepted(s.archive, rows)
    ensures Inv(c, E, A, Inserted(c, s, id, i, rows))
  {
    OwnYear(c, E, A, s, id);
    InsertKeepsRows(c, E, A, s.hot, s.archive, s.now, rows);
    InsertedOk(c, E, s.hot, s.archive, s.now, s.workers[id], i, rows);
    StepKeeps(c, E, A, s, Inserted(c, s, id, i, rows), id);
  }

  lemma StopKeeps(c: Config, E: Db, A: Db, s: State, id: nat)
    requires Inv(c, E, A, s) && id in s.workers
    ensures Inv(c, E, A, Goto(s, id, s.workers[id].(pc := Stopped)))
  {
    assert WorkerOk(c, E, s.hot, s.archive, s.now, s.workers[id]);
    StepKeeps(c, E, A, s, Goto(s, id, s.workers[id].(pc := Stopped)), id);
  }

  lemma InsertWriteKeeps(c: Config, E: Db, A: Db, s: State, id: nat)
    requires Inv(c, E, A, s) && id in s.workers && s.workers[id].pc.InsertWrite?
    ensures Inv(c, E, A, Stepped(c, s, id))
  {
    var pc := s.workers[id].pc;
    if InsertAccepted(s.archive, pc.rows) { InsertedKeeps(c, E, A, s, id, pc.i, pc.rows); } else { StopKeeps(c, E, A, s, id); }
  }

  lemma DeleteReadKeeps(c: Config, E: Db, A: Db, s: State, id: nat)
    requires Inv(c, E, A, s) && id in s.workers && s.workers[id].pc.DeleteRead?
    ensures Inv(c, E, A, Stepped(c, s, id))
  {
    var w := s.workers[id];
    OwnYear(c, E, A, s, id);
    SelectDelete(c.batch, w.cutoff, Due(c, E, w), s.archive, s.hot, s.archive, w.pc.j);
    StepKeeps(c, E, A, s, Stepped(c, s, id), id);
  }

  lemma DeletedKeeps(c: Config, E: Db, A: Db, s: State, id: nat, j: Pass, ids: set<nat>)
    requires Inv(c, E, A, s) && id in s.workers && s.workers[id].pc == DeleteWrite(j, ids)
    requires DeleteAccepted(s.hot, KeysOf(DeleteTable(j), ids))
    ensures Inv(c, E, A, Deleted(c, s, id, j, ids))
  {
    var w := s.workers[id];
    var V := Due(c, E, w);
    OwnYear(c, E, A, s, id);
    DeleteVerdict(c.batch, w.cutoff, V, s.archive, s.hot, s.archive, j, ids);
    ReadyIsArchived(V, s.archive);
    DeleteKeepsRows(c, E, A, s.hot, s.archive, s.now, KeysOf(DeleteTable(j), ids));
    ClearedAfterDelete(c.batch, V, s.hot, j, ids);
    StepKeeps(c, E, A, s, Deleted(c, s, id, j, ids), id);
  }

  lemma DeleteWriteKeeps(c: Config, E: Db, A: Db, s: State, id: nat)
    requires Inv(c, E, A, s) && id in s.workers && s.workers[id].pc.DeleteWrite?
    ensures Inv(c, E, A, Stepped(c, s, id))
  {
    var pc := s.workers[id].pc;
    if DeleteAccepted(s.hot, KeysOf(DeleteTable(pc.j), pc.ids)) { DeletedKeeps(c, E, A, s, id, pc.j, pc.ids); }
    else { StopKeeps(c, E, A, s, id); }
  }

  predicate AtLoopHead(pc: Pc) {
    !pc.InsertRead? && !pc.InsertWrite? && !pc.DeleteRead? && !pc.DeleteWrite?
  }

  /** A cutoff is only computed before the deadline, so in the year of the launch. */
  lemma SameCutoff(c: Config, w: Worker, now: int)
    requires Calendar(c) && w.launched <= now < w.deadline && InOneYear(c, w.launched, w.deadline)
    ensures c.yearStart(now) == c.yearStart(w.launched)
  {
    assert c.yearStart(w.launched) <= c.yearStart(now) <= c.yearStart(w.deadline - 1);
  }

  /** The worker at its next control point; nothing else changes there. */
  lemma LoopHeadMoves(c: Config, s: State, id: nat)
    requires id in s.workers && AtLoopHead(s.workers[id].pc)
    ensures var s' := Stepped(c, s, id); s' == Goto(s, id, s'.workers[id])
    ensures var w, w' := s.workers[id], Stepped(c, s, id).workers[id];
      w'.launched == w.launched && w'.deadline == w.deadline
  {
  }

  lemma InsertHeadOk(c: Config, V: Db, s: State, id: nat, y: int)
    requires id in s.workers && (s.workers[id].pc.ForInsert? || s.workers[id].pc.InsertLoop?)
    requires PcOk(c.batch, y, V, s.hot, s.archive, s.workers[id])
    requires s.workers[id].cut ==> Exceeded(s, s.workers[id])
    requires !Exceeded(s, s.workers[id]) ==> c.yearStart(s.now) == y
    ensures PcOk(c.batch, y, V, s.hot, s.archive, Stepped(c, s, id).workers[id])
    ensures Stepped(c, s, id).workers[id].cut ==> s.workers[id].cut || Exceeded(s, s.workers[id])
  {
    var pc := s.workers[id].pc;
    if pc.ForInsert? && pc.next < TABLES && !s.workers[id].cut { assert CopiedUpTo(V, s.archive, pc.next, 0); }
  }

  lemma DeleteHeadOk(c: Config, V: Db, s: State, id: nat, y: int)
    requires id in s.workers && (s.workers[id].pc.ForDelete? || s.workers[id].pc.DeleteLoop?)
    requires PcOk(c.batch, y, V, s.hot, s.archive, s.workers[id])
    requires s.workers[id].cut ==> Exceeded(s, s.workers[id])
    requires !Exceeded(s, s.workers[id]) ==> c.yearStart(s.now) == y
    ensures PcOk(c.batch, y, V, s.hot, s.archive, Stepped(c, s, id).workers[id])
    ensures Stepped(c, s, id).workers[id].cut ==> s.workers[id].cut || Exceeded(s, s.workers[id])
  {
  }

  lemma LoopHeadOk(c: Config, E: Db, s: State, id: nat)
    requires Calendar(c) && id in s.workers && AtLoopHead(s.workers[id].pc)
    requires WorkerOk(c, E, s.hot, s.archive, s.now, s.workers[id])
    ensures WorkerOk(c, E, s.hot, s.archive, s.now, Stepped(c, s, id).workers[id])
  {
    var w := s.workers[id];
    var y, V := c.yearStart(w.launched), Due(c, E, w);
    LoopHeadMoves(c, s, id);
    if !Exceeded(s, w) { SameCutoff(c, w, s.now); }
    if w.pc.ForInsert? || w.pc.InsertLoop? { InsertHeadOk(c, V, s, id, y); }
    if w.pc.ForDelete? || w.pc.DeleteLoop? { DeleteHeadOk(c, V, s, id, y); }
  }

  lemma LoopHeadKeeps(c: Config, E: Db, A: Db, s: State, id: nat)
    requires Inv(c, E, A, s) && id in s.workers && AtLoopHead(s.workers[id].pc)
    ensures Inv(c, E, A, Stepped(c, s, id))
  {
    LoopHeadOk(c, E, s, id);
    LoopHeadMoves(c, s, id);
    StepKeeps(c, E, A, s, Stepped(c, s, id), id);
  }

  lemma AdvanceKeeps(c: Config, E: Db, A: Db, s: State, id: nat)
    requires Inv(c, E, A, s) && id in s.workers
    ensures Inv(c, E, A, Stepped(c, s, id))
  {
    var pc := s.workers[id].pc;
    if pc.InsertRead? { InsertReadKeeps(c, E, A, s, id); }
    else if pc.InsertWrite? { InsertWriteKeeps(c, E, A, s, id); }
    else if pc.DeleteRead? { DeleteReadKeeps(c, E, A, s, id); }
    else if pc.DeleteWrite? { DeleteWriteKeeps(c, E, A, s, id); }
    else { LoopHeadKeeps(c, E, A, s, id); }
  }

  lemma OtherRowsOk(c: Config, E: Db, A: Db, s: State, hot: Db)
    requires Inv(c, E, A, s) && Calm(c, s, OtherWriters(hot))
    ensures RowsOk(c, E, A, hot, s.archive, s.now)
    ensures forall k :: k in E && k in hot ==> k in s.hot
  {
    var y := c.yearStart(s.now);
    var before, after := EligibleRows(s.hot, y), EligibleRows(hot, y);
    assert forall k :: k in before <==> k in after;
    forall k | k in E && k in hot ensures k in s.hot {}
    forall k | k in hot ensures (Eligible(hot, k, y) <==> k in E) && (k in E ==> hot[k] == E[k]) {
      if Eligible(hot, k, y) { assert k in after; }
      if k in E { assert k in before; }
    }
    forall k | k in E ensures k in hot || k in s.archive {
      if k in s.hot { assert k in before; }
    }
  }

  lemma OtherWritersKeep(c: Config, E: Db, A: Db, s: State, hot: Db)
    requires Inv(c, E, A, s) && Calm(c, s, OtherWriters(hot))
    ensures Inv(c, E, A, s.(hot := hot))
  {
    OtherRowsOk(c, E, A, s, hot);
    forall o | o in s.workers ensures WorkerOk(c, E, hot, s.archive, s.now, s.workers[o]) {
      WorkersDoNotInterfere(c, E, s.hot, s.archive, s.now, hot, s.archive, s.now, s.workers[o]);
    }
  }

  /** What a worker knows of its own year the passing of time does not touch. */
  lemma TickKeepsWorker(c: Config, E: Db, A: Db, s: State, id: nat, now: int)
    requires Inv(c, E, A, s) && id in s.workers && s.now <= now
    requires ClosedFamilies(E + EligibleRows(s.hot, c.yearStart(now)))
    ensures WorkerOk(c, E + EligibleRows(s.hot, c.yearStart(now)), s.hot, s.archive, now, s.workers[id])
  {
    var w := s.workers[id];
    assert WorkerOk(c, E, s.hot, s.archive, s.now, w);
    OldYearsStay(c.yearStart(s.now), E, A, s.hot, s.archive, c.yearStart(now), c.yearStart(w.launched));
  }

  lemma TickKeepsRows(c: Config, E: Db, A: Db, hot: Db, archive: Db, now: int, now': int)
    requires RowsOk(c, E, A, hot, archive, now) && now <= now'
    ensures RowsOk(c, E + EligibleRows(hot, c.yearStart(now')), A, hot, archive, now')
  {
    NewYear(c.yearStart(now), E, A, hot, archive, c.yearStart(now'));
  }

  lemma TickKeeps(c: Config, E: Db, A: Db, s: State, elapsed: nat)
    requires Inv(c, E, A, s)
    ensures Inv(c, E + EligibleRows(s.hot, c.yearStart(s.now + elapsed)), A, s.(now := s.now + elapsed))
  {
    hide TablesOk, EligibleRows, WorkerOk;
    TickKeepsRows(c, E, A, s.hot, s.archive, s.now, s.now + elapsed);
    forall o | o in s.workers
      ensures WorkerOk(c, E + EligibleRows(s.hot, c.yearStart(s.now + elapsed)), s.hot, s.archive, s.now + elapsed, s.workers[o])
    {
      TickKeepsWorker(c, E, A, s, o, s.now + elapsed);
    }
  }

  /** E after the action: a year that ends adds its rows. */
  function Grown(c: Config, E: Db, s: State): Db {
    E + EligibleRows(s.hot, c.yearStart(s.now))
  }

  ghost predicate Extends(E: Db, E': Db) {
    forall k :: k in E ==> k in E' && E'[k] == E[k]
  }

  lemma LaunchKeeps(c: Config, E: Db, A: Db, s: State, w: nat, budget: nat)
    requires Inv(c, E, A, s) && InOneYear(c, s.now, s.now + budget)
    ensures Inv(c, E, A, Applied(c, s, Launch(w, budget)))
  {
    StepKeeps(c, E, A, s, Applied(c, s, Launch(w, budget)), w);
  }

  /** Within a year E stays as it is. */
  lemma NothingGrows(c: Config, E: Db, A: Db, s: State)
    requires Inv(c, E, A, s)
    ensures Grown(c, E, s) == E
  {
    NothingNew(c.yearStart(s.now), E, A, s.hot, s.archive);
  }

  lemma YearExtends(cutoff: int, E: Db, A: Db, hot: Db, archive: Db, N: Db)
    requires TablesOk(cutoff, E, A, hot, archive) && forall k :: k in N ==> k in hot && N[k] == hot[k]
    ensures Extends(E, E + N)
  {
  }

  lemma CallKeeps(c: Config, E: Db, A: Db, s: State, a: Action)
    requires Inv(c, E, A, s) && Calm(c, s, a) && !a.Tick?
    requires a.Launch? ==> InOneYear(c, s.now, s.now + a.budget)
    ensures Inv(c, E, A, Applied(c, s, a))
  {
    hide Inv, Calendar, EligibleRows;
    match a
    case Launch(w, budget) => LaunchKeeps(c, E, A, s, w, budget);
    case Kill(w) => if w in s.workers { StopKeeps(c, E, A, s, w); }
    case OtherWriters(hot) => OtherWritersKeep(c, E, A, s, hot);
    case Advance(w) => AdvanceKeeps(c, E, A, s, w);
  }

  /** Every step of every worker, clock tick, launch, kill and outside write keeps
      the invariant, if every launch fits into one year. */
  lemma EveryStepKeeps(c: Config, E: Db, A: Db, s: State, a: Action)
    requires Inv(c, E, A, s) && Calm(c, s, a)
    requires a.Launch? ==> InOneYear(c, s.now, s.now + a.budget)
    ensures Inv(c, Grown(c, E, Applied(c, s, a)), A, Applied(c, s, a))
    ensures Extends(E, Grown(c, E, Applied(c, s, a)))
  {
    if a.Tick? {
      YearExtends(c.yearStart(s.now), E, A, s.hot, s.archive, EligibleRows(s.hot, c.yearStart(s.now + a.elapsed)));
      hide Inv, Calendar, EligibleRows, Extends;
      TickKeeps(c, E, A, s, a.elapsed);
    } else {
      hide Inv, Calendar, EligibleRows, Calm, Applied;
      CallKeeps(c, E, A, s, a);
      NothingGrows(c, E, A, Applied(c, s, a));
    }
  }

  // ---- the theorems, over every run ------------------------------------------

  /** Every row that has been of a past year at some moment up to n. */
  function Ever(c: Config, trace: seq<State>, n: nat): Db
    requires n < |trace|
  {
    if n == 0 then EligibleRows(trace[0].hot, c.yearStart(trace[0].now))
    else Grown(c, Ever(c, trace, n - 1), trace[n])
  }

  /** How state n came about. */
  lemma StepOf(c: Config, trace: seq<State>, actions: seq<Action>, n: nat)
    requires IsRun(c, trace, actions) && 0 < n < |trace|
    ensures |trace| == |actions| + 1 && Calm(c, trace[n - 1], actions[n - 1])
    ensures trace[n] == Applied(c, trace[n - 1], actions[n - 1])
    ensures LaunchesFit(c, trace, actions) && actions[n - 1].Launch? ==>
              InOneYear(c, trace[n - 1].now, trace[n - 1].now + actions[n - 1].budget)
  {
    var m := n - 1;
    assert trace[m + 1] == Applied(c, trace[m], actions[m]);
  }

  lemma {:induction false} Reached(c: Config, trace: seq<State>, actions: seq<Action>, n: nat)
    requires IsRun(c, trace, actions) && LaunchesFit(c, trace, actions) && n < |trace|
    ensures Inv(c, Ever(c, trace, n), trace[0].archive, trace[n])
  {
    hide LaunchesFit, Calm, Applied, Inv, Initial, Grown;
    if n == 0 {
      InitialOk(c, trace[0]);
    } else {
      hide IsRun;
      Reached(c, trace, actions, n - 1);
      StepOf(c, trace, actions, n);
      EveryStepKeeps(c, Ever(c, trace, n - 1), trace[0].archive, trace[n - 1], actions[n - 1]);
    }
  }

  ghost predicate Kept(k: Key, row: Row, s: State) {
    (k in s.hot && s.hot[k] == row) || (k in s.archive && s.archive[k] == Archived(row))
  }

  /** A row that is of a past year is, from then on, in hot as it was or in the archive
      as its copy (ArchivalCopies says when that is the same), and the archive never
      loses or alters anything it has. */
  ghost predicate NothingLost(c: Config, trace: seq<State>) {
    forall m, n, k {:trigger Kept(k, trace[m].hot[k], trace[n])} | 0 <= m <= n < |trace| ::
      && (k in trace[m].hot && Eligible(trace[m].hot, k, c.yearStart(trace[m].now)) ==> Kept(k, trace[m].hot[k], trace[n]))
      && (k in trace[m].archive ==> k in trace[n].archive && trace[n].archive[k] == trace[m].archive[k])
  }
}
