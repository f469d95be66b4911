/** Which data archival gets through, over every run of one year's workers: no batch
    is ever rejected by a foreign key exactly when no batch boundary comes between a
    charge and its refund, and otherwise no run of that year ever completes. */
module ArchivalRejections {
  import opened Prelude
  import opened ArchivalTables
  import opened ArchivalBatches
  import opened ArchivalSlots
  import opened ArchivalRefunds
  import opened ArchivalProtocol
  import opened ArchivalRuns
  import Theorems = ArchivalTheorems

  /** All workers are launched in the year of the start. */
  ghost predicate SameYear(c: Config, trace: seq<State>, actions: seq<Action>) {
    |trace| == |actions| + 1 &&
    forall n {:trigger actions[n]} | 0 <= n < |actions| && actions[n].Launch? :: c.yearStart(trace[n].now) == c.yearStart(trace[0].now)
  }

  /** The rows these workers are to move. */
  function DueAt(c: Config, s: State): Db {
    EligibleRows(s.hot, c.yearStart(s.now))
  }

  ghost predicate PcInSlots(batch: nat, V: Db, archive: Db, pc: Pc)
    requires batch > 0
  {
    match pc
    case InsertLoop(i, cursor) => CursorInSlots(batch, V, archive, i, cursor)
    case InsertRead(i, cursor) => CursorInSlots(batch, V, archive, i, cursor)
    case InsertWrite(i, rows) => RowsInSlot(batch, V, archive, i, rows)
    case DeleteWrite(j, ids) => IdsInSlot(batch, V, j, ids)
    case _ => true
  }

  /** y: the cutoff; V: the rows due. */
  ghost predicate SlotInv(c: Config, y: int, V: Db, A: Db, s: State)
    requires c.batch > 0
  {
    && Slots(c.batch, V, A, s.hot, s.archive)
    && (forall k :: k in A ==> k in s.archive)
    && forall id :: id in s.workers ==>
         c.yearStart(s.workers[id].launched) == y && PcInSlots(c.batch, V, s.archive, s.workers[id].pc)
  }

  lemma PcStaysInSlots(batch: nat, V: Db, archive: Db, archive': Db, pc: Pc)
    requires batch > 0 && PcInSlots(batch, V, archive, pc)
    requires forall k :: k in archive ==> k in archive'
    ensures PcInSlots(batch, V, archive', pc)
  {
  }

  lemma WorkerStepInSlots(c: Config, y: int, V: Db, A: Db, s: State, s': State, id: nat)
    requires c.batch > 0 && SlotInv(c, y, V, A, s) && id in s'.workers
    requires s'.workers == s.workers[id := s'.workers[id]] && s'.now == s.now
    requires forall k :: k in s.archive ==> k in s'.archive
    requires Slots(c.batch, V, A, s'.hot, s'.archive)
    requires c.yearStart(s'.workers[id].launched) == y && PcInSlots(c.batch, V, s'.archive, s'.workers[id].pc)
    ensures SlotInv(c, y, V, A, s')
  {
    forall o | o in s'.workers && o != id ensures PcInSlots(c.batch, V, s'.archive, s'.workers[o].pc) {
      PcStaysInSlots(c.batch, V, s.archive, s'.archive, s.workers[o].pc);
    }
  }

  /** What a worker of this year knows. */
  lemma Knows(c: Config, y: int, V: Db, E: Db, A: Db, s: State, id: nat)
    requires Inv(c, E, A, s) && SlotInv(c, y, V, A, s) && EligibleRows(E, y) == V && id in s.workers
    ensures ClosedFamilies(V) && TablesOk(y, V, s.archive, s.hot, s.archive)
    ensures PcOk(c.batch, y, V, s.hot, s.archive, s.workers[id])
  {
    OwnYear(c, E, A, s, id);
  }

  lemma InsertReadInSlots(c: Config, y: int, V: Db, E: Db, A: Db, s: State, id: nat)
    requires Inv(c, E, A, s) && SlotInv(c, y, V, A, s) && EligibleRows(E, y) == V && id in s.workers && s.workers[id].pc.InsertRead?
    ensures SlotInv(c, y, V, A, Stepped(c, s, id))
  {
    Knows(c, y, V, E, A, s, id);
    var pc := s.workers[id].pc;
    SelectedRowsInSlot(c.batch, y, V, A, s.hot, s.archive, pc.i, pc.cursor);
    WorkerStepInSlots(c, y, V, A, s, Stepped(c, s, id), id);
  }

  lemma InsertedPcInSlots(batch: nat, V: Db, archive: Db, i: Pass, rows: Batch)
    requires batch > 0 && RowsInSlot(batch, V, archive, i, rows)
    ensures PcInSlots(batch, V, InsertIgnore(archive, rows), AfterInsert(batch, i, rows))
  {
  }

  lemma CopyKeepsSlots(c: Config, y: int, V: Db, A: Db, hot: Db, archive: Db, w: Worker, i: Pass, rows: Batch)
    requires c.batch > 0 && ForeignKeysHold(V) && PcOk(c.batch, y, V, hot, archive, w) && w.pc == InsertWrite(i, rows)
    requires Slots(c.batch, V, A, hot, archive) && PcInSlots(c.batch, V, archive, w.pc) && InsertAccepted(archive, rows)
    ensures Slots(c.batch, V, A, hot, InsertIgnore(archive, rows))
    ensures PcInSlots(c.batch, V, InsertIgnore(archive, rows), AfterInsert(c.batch, i, rows))
  {
    SlotsAfterInsert(c.batch, V, A, hot, archive, i, rows);
    InsertedPcInSlots(c.batch, V, archive, i, rows);
  }

  lemma InsertedInSlots(c: Config, y: int, V: Db, E: Db, A: Db, s: State, id: nat, i: Pass, rows: Batch)
    requires Inv(c, E, A, s) && SlotInv(c, y, V, A, s) && EligibleRows(E, y) == V
    requires id in s.workers && s.workers[id].pc == InsertWrite(i, rows) && InsertAccepted(s.archive, rows)
    ensures SlotInv(c, y, V, A, Inserted(c, s, id, i, rows))
  {
    Knows(c, y, V, E, A, s, id);
    CopyKeepsSlots(c, y, V, A, s.hot, s.archive, s.workers[id], i, rows);
    WorkerStepInSlots(c, y, V, A, s, Inserted(c, s, id, i, rows), id);
  }

  lemma DeleteReadInSlots(c: Config, y: int, V: Db, E: Db, A: Db, s: State, id: nat)
    requires Inv(c, E, A, s) && SlotInv(c, y, V, A, s) && EligibleRows(E, y) == V && id in s.workers && s.workers[id].pc.DeleteRead?
    ensures SlotInv(c, y, V, A, Stepped(c, s, id))
  {
    Knows(c, y, V, E, A, s, id);
    SelectedIdsInSlot(c.batch, y, V, A, s.hot, s.archive, s.workers[id].pc.j);
    WorkerStepInSlots(c, y, V, A, s, Stepped(c, s, id), id);
  }

  lemma DeletedInSlots(c: Config, y: int, V: Db, E: Db, A: Db, s: State, id: nat, j: Pass, ids: set<nat>)
    requires Inv(c, E, A, s) && SlotInv(c, y, V, A, s) && EligibleRows(E, y) == V && id in s.workers && s.workers[id].pc == DeleteWrite(j, ids)
    requires DeleteAccepted(s.hot, KeysOf(DeleteTable(j), ids))
    ensures SlotInv(c, y, V, A, Deleted(c, s, id, j, ids))
  {
    Knows(c, y, V, E, A, s, id);
    DeleteVerdict(c.batch, y, V, s.archive, s.hot, s.archive, j, ids);
    SlotsAfterDelete(c.batch, y, V, A, s.hot, s.archive, j, ids);
    WorkerStepInSlots(c, y, V, A, s, Deleted(c, s, id, j, ids), id);
  }

  lemma LoopHeadInSlots(c: Config, y: int, V: Db, E: Db, A: Db, s: State, id: nat)
    requires Inv(c, E, A, s) && SlotInv(c, y, V, A, s) && EligibleRows(E, y) == V && id in s.workers && AtLoopHead(s.workers[id].pc)
    ensures SlotInv(c, y, V, A, Stepped(c, s, id))
  {
    LoopHeadMoves(c, s, id);
    HeadPcInSlots(c, V, s, id);
    WorkerStepInSlots(c, y, V, A, s, Stepped(c, s, id), id);
  }

  lemma HeadPcInSlots(c: Config, V: Db, s: State, id: nat)
    requires c.batch > 0 && id in s.workers && AtLoopHead(s.workers[id].pc)
    requires PcInSlots(c.batch, V, s.archive, s.workers[id].pc)
    ensures PcInSlots(c.batch, V, s.archive, Stepped(c, s, id).workers[id].pc)
  {
    StartIsAligned(Payments(V), c.batch);
  }

  lemma AdvanceInSlots(c: Config, y: int, V: Db, E: Db, A: Db, s: State, id: nat)
    requires Inv(c, E, A, s) && SlotInv(c, y, V, A, s) && EligibleRows(E, y) == V && id in s.workers
    ensures SlotInv(c, y, V, A, Stepped(c, s, id))
  {
    var pc := s.workers[id].pc;
    if pc.InsertRead? { InsertReadInSlots(c, y, V, E, A, s, id); }
    else if pc.DeleteRead? { DeleteReadInSlots(c, y, V, E, A, s, id); }
    else if AtLoopHead(pc) { LoopHeadInSlots(c, y, V, E, A, s, id); }
    else { WriteInSlots(c, y, V, E, A, s, id); }
  }

  lemma WriteInSlots(c: Config, y: int, V: Db, E: Db, A: Db, s: State, id: nat)
    requires Inv(c, E, A, s) && SlotInv(c, y, V, A, s) && EligibleRows(E, y) == V && id in s.workers
    requires s.workers[id].pc.InsertWrite? || s.workers[id].pc.DeleteWrite?
    ensures SlotInv(c, y, V, A, Stepped(c, s, id))
  {
    var pc := s.workers[id].pc;
    if pc.InsertWrite? && InsertAccepted(s.archive, pc.rows) { InsertedInSlots(c, y, V, E, A, s, id, pc.i, pc.rows); }
    else if pc.DeleteWrite? && DeleteAccepted(s.hot, KeysOf(DeleteTable(pc.j), pc.ids)) { DeletedInSlots(c, y, V, E, A, s, id, pc.j, pc.ids); }
    else { WorkerStepInSlots(c, y, V, A, s, Goto(s, id, s.workers[id].(pc := Stopped)), id); }
  }

  lemma SameRowsSameSlots(batch: nat, V: Db, A: Db, hot: Db, hot': Db, archive: Db)
    requires batch > 0 && Slots(batch, V, A, hot, archive) && ForeignKeysHold(V)
    requires forall k :: k in V ==> (k in hot <==> k in hot')
    ensures Slots(batch, V, A, hot', archive)
  {
    assert LeftIn(V, hot') == LeftIn(V, hot);
    forall k, r | Refunds(V, k, r) && r !in hot' ensures r !in hot { RefundIsThere(V, k, r); }
  }

  lemma OthersLeaveRows(c: Config, V: Db, E: Db, A: Db, s: State, hot: Db)
    requires Inv(c, E, A, s) && Calm(c, s, OtherWriters(hot)) && forall k :: k in V ==> k in E
    ensures forall k :: k in V ==> (k in hot <==> k in s.hot)
  {
    OtherRowsOk(c, E, A, s, hot);
    var y := c.yearStart(s.now);
    forall k | k in V && k in s.hot ensures k in hot { assert k in EligibleRows(s.hot, y) && k in EligibleRows(hot, y); }
  }

  /** Other writers do not touch the rows due. */
  lemma OthersInSlots(c: Config, y: int, V: Db, E: Db, A: Db, s: State, hot: Db)
    requires Inv(c, E, A, s) && SlotInv(c, y, V, A, s) && EligibleRows(E, y) == V && Calm(c, s, OtherWriters(hot))
    ensures SlotInv(c, y, V, A, s.(hot := hot))
  {
    YearIsClosed(E, y);
    OthersLeaveRows(c, V, E, A, s, hot);
    SameRowsSameSlots(c.batch, V, A, s.hot, hot, s.archive);
  }

  lemma LaunchInSlots(c: Config, y: int, V: Db, E: Db, A: Db, s: State, a: Action)
    requires Inv(c, E, A, s) && SlotInv(c, y, V, A, s) && EligibleRows(E, y) == V && Calm(c, s, a) && (a.Launch? || a.Kill?)
    requires a.Launch? ==> c.yearStart(s.now) == y
    ensures SlotInv(c, y, V, A, Applied(c, s, a))
  {
    if a.Launch? || a.w in s.workers { WorkerStepInSlots(c, y, V, A, s, Applied(c, s, a), a.w); }
  }

  lemma ActionInSlots(c: Config, y: int, V: Db, E: Db, A: Db, s: State, a: Action)
    requires Inv(c, E, A, s) && SlotInv(c, y, V, A, s) && EligibleRows(E, y) == V && Calm(c, s, a)
    requires a.Launch? ==> c.yearStart(s.now) == y
    ensures SlotInv(c, y, V, A, Applied(c, s, a))
  {
    match a
    case Tick(_) =>
    case Launch(_, _) => LaunchInSlots(c, y, V, E, A, s, a);
    case Kill(_) => LaunchInSlots(c, y, V, E, A, s, a);
    case OtherWriters(hot) => OthersInSlots(c, y, V, E, A, s, hot);
    case Advance(w) => AdvanceInSlots(c, y, V, E, A, s, w);
  }

  lemma StartInSlots(c: Config, s: State)
    requires Initial(c, s)
    ensures SlotInv(c, c.yearStart(s.now), DueAt(c, s), s.archive, s)
  {
    YearOfHot(s.hot, c.yearStart(s.now));
    SlotsAtStart(c.batch, DueAt(c, s), s.hot, s.archive);
  }

  lemma StartsInitial(c: Config, trace: seq<State>, actions: seq<Action>)
    requires IsRun(c, trace, actions)
    ensures |trace| > 0 && Initial(c, trace[0]) && c.batch > 0
  {
  }

  lemma DueAgain(c: Config, s: State)
    requires Initial(c, s)
    ensures EligibleRows(DueAt(c, s), c.yearStart(s.now)) == DueAt(c, s)
  {
    YearOfHot(s.hot, c.yearStart(s.now));
  }

  lemma LaunchYear(c: Config, trace: seq<State>, actions: seq<Action>, m: nat)
    requires SameYear(c, trace, actions) && m < |actions| && actions[m].Launch?
    ensures c.yearStart(trace[m].now) == c.yearStart(trace[0].now)
  {
  }

  /** Later years do not change what is due for this one. */
  lemma {:induction false} DueStays(c: Config, trace: seq<State>, actions: seq<Action>, n: nat)
    requires IsRun(c, trace, actions) && LaunchesFit(c, trace, actions) && n < |trace|
    ensures EligibleRows(Ever(c, trace, n), c.yearStart(trace[0].now)) == DueAt(c, trace[0])
  {
    hide IsRun, LaunchesFit, Calm, Applied, Inv, Initial, Grown, EligibleRows;
    if n == 0 {
      StartsInitial(c, trace, actions);
      DueAgain(c, trace[0]);
    } else {
      StepOf(c, trace, actions, n);
      DueStays(c, trace, actions, n - 1);
      Reached(c, trace, actions, n - 1);
      Theorems.YearGoesForward(c, trace, actions, 0, n - 1);
      DueStep(c, Ever(c, trace, n - 1), trace[0].archive, trace[n - 1], actions[n - 1], c.yearStart(trace[0].now));
    }
  }

  lemma DueStep(c: Config, E: Db, A: Db, s: State, a: Action, y: int)
    requires Inv(c, E, A, s) && Calm(c, s, a) && y <= c.yearStart(s.now)
    requires a.Launch? ==> InOneYear(c, s.now, s.now + a.budget)
    ensures EligibleRows(Grown(c, E, Applied(c, s, a)), y) == EligibleRows(E, y)
  {
    if a.Tick? {
      var now, later := c.yearStart(s.now), c.yearStart(s.now + a.elapsed);
      NewYear(now, E, A, s.hot, s.archive, later);
      OldYearsStay(now, E, A, s.hot, s.archive, later, y);
    } else {
      Theorems.SameClock(c, s, a);
      Theorems.EverStaysPut(c, E, A, s, a);
    }
  }

  lemma SlotsStep(c: Config, trace: seq<State>, actions: seq<Action>, n: nat, y: int, V: Db)
    requires IsRun(c, trace, actions) && LaunchesFit(c, trace, actions) && SameYear(c, trace, actions) && 0 < n < |trace|
    requires y == c.yearStart(trace[0].now) && V == DueAt(c, trace[0])
    requires SlotInv(c, y, V, trace[0].archive, trace[n - 1])
    ensures SlotInv(c, y, V, trace[0].archive, trace[n])
  {
    hide *;
    StepOf(c, trace, actions, n);
    Reached(c, trace, actions, n - 1);
    DueStays(c, trace, actions, n - 1);
    if actions[n - 1].Launch? { LaunchYear(c, trace, actions, n - 1); }
    ActionInSlots(c, y, V, Ever(c, trace, n - 1), trace[0].archive, trace[n - 1], actions[n - 1]);
  }

  lemma {:induction false} SlotsReached(c: Config, trace: seq<State>, actions: seq<Action>, n: nat)
    requires IsRun(c, trace, actions) && LaunchesFit(c, trace, actions) && SameYear(c, trace, actions) && n < |trace|
    ensures SlotInv(c, c.yearStart(trace[0].now), DueAt(c, trace[0]), trace[0].archive, trace[n])
  {
    if n == 0 {
      StartInSlots(c, trace[0]);
    } else {
      SlotsReached(c, trace, actions, n - 1);
      SlotsStep(c, trace, actions, n, c.yearStart(trace[0].now), DueAt(c, trace[0]));
    }
  }

  lemma ReachedInSlots(c: Config, trace: seq<State>, actions: seq<Action>, n: nat)
    requires IsRun(c, trace, actions) && LaunchesFit(c, trace, actions) && SameYear(c, trace, actions) && n < |trace|
    ensures Inv(c, Ever(c, trace, n), trace[0].archive, trace[n])
    ensures EligibleRows(Ever(c, trace, n), c.yearStart(trace[0].now)) == DueAt(c, trace[0])
    ensures SlotInv(c, c.yearStart(trace[0].now), DueAt(c, trace[0]), trace[0].archive, trace[n])
  {
    Reached(c, trace, actions, n);
    DueStays(c, trace, actions, n);
    SlotsReached(c, trace, actions, n);
  }

  // ---- the theorems -------------------------------------------------------------

  /** The pending statement of a worker gets past the foreign keys. */
  predicate Passes(s: State, pc: Pc) {
    match pc
    case InsertWrite(_, rows) => InsertAccepted(s.archive, rows)
    case DeleteWrite(j, ids) => DeleteAccepted(s.hot, KeysOf(DeleteTable(j), ids))
    case _ => true
  }

  lemma PassesInSlots(c: Config, y: int, V: Db, E: Db, A: Db, s: State, id: nat)
    requires Inv(c, E, A, s) && SlotInv(c, y, V, A, s) && EligibleRows(E, y) == V && id in s.workers && RefundsInSlots(c.batch, V, A)
    ensures Passes(s, s.workers[id].pc)
  {
    Knows(c, y, V, E, A, s, id);
    var pc := s.workers[id].pc;
    if pc.InsertWrite? { InSlotsIsAccepted(c.batch, V, A, s.archive, pc.i, pc.rows); }
    if pc.DeleteWrite? { InSlotsIsDeletable(c.batch, y, V, A, s.hot, s.archive, pc.j, pc.ids); }
  }

  /** If the refunds are in their slots, no batch of any run is ever rejected. */
  lemma NoBatchIsRejected(c: Config, trace: seq<State>, actions: seq<Action>, n: nat, id: nat)
    requires IsRun(c, trace, actions) && LaunchesFit(c, trace, actions) && SameYear(c, trace, actions)
    requires RefundsInSlots(c.batch, DueAt(c, trace[0]), trace[0].archive)
    requires n < |trace| && id in trace[n].workers
    ensures Passes(trace[n], trace[n].workers[id].pc)
  {
    ReachedInSlots(c, trace, actions, n);
    PassesInSlots(c, c.yearStart(trace[0].now), DueAt(c, trace[0]), Ever(c, trace, n), trace[0].archive, trace[n], id);
  }

  /** A run that completed shows that they are: so if they are not, none ever does. */
  lemma CompletedShowsSlots(c: Config, trace: seq<State>, actions: seq<Action>, n: nat, id: nat)
    requires IsRun(c, trace, actions) && LaunchesFit(c, trace, actions) && SameYear(c, trace, actions)
    requires n < |trace| && Theorems.Completed(trace[n], id)
    ensures RefundsInSlots(c.batch, DueAt(c, trace[0]), trace[0].archive)
  {
    ReachedInSlots(c, trace, actions, n);
    CompletedInSlots(c, c.yearStart(trace[0].now), DueAt(c, trace[0]), Ever(c, trace, n), trace[0].archive, trace[n], id);
  }

  lemma CompletedInSlots(c: Config, y: int, V: Db, E: Db, A: Db, s: State, id: nat)
    requires Inv(c, E, A, s) && SlotInv(c, y, V, A, s) && EligibleRows(E, y) == V && Theorems.Completed(s, id)
    ensures RefundsInSlots(c.batch, V, A)
  {
    Knows(c, y, V, E, A, s, id);
    ReadyIsArchived(V, s.archive);
    Theorems.ClearedIsGone(V, s.hot);
    DoneWasInSlots(c.batch, V, A, s.hot, s.archive);
  }

  /** One charge whose refund is copied too late stops the year for good: in every
      run, whatever else happens, no transaction from its batch on is ever archived
      that was not before, no worker ever deletes anything, every row due stays in
      hot, and no worker completes. */
  lemma LateCopyBlocksTheYear(c: Config, trace: seq<State>, actions: seq<Action>, n: nat, k: Key, r: Key)
    requires IsRun(c, trace, actions) && LaunchesFit(c, trace, actions) && SameYear(c, trace, actions) && n < |trace|
    requires var V := DueAt(c, trace[0]); Refunds(V, k, r) && !CopiedInTime(c.batch, V, trace[0].archive, k, r)
    ensures var V := DueAt(c, trace[0]);
      && (forall t | Payment(V, t) && t !in trace[0].archive
                  && Up(Payments(V), c.batch, k.id) <= Up(Payments(V), c.batch, t.id) :: t !in trace[n].archive)
      && V.Keys <= trace[n].hot.Keys
      && (forall id :: id in trace[n].workers ==> !trace[n].workers[id].pc.DeleteWrite? && !Theorems.Completed(trace[n], id))
  {
    var V, s := DueAt(c, trace[0]), trace[n];
    ReachedInSlots(c, trace, actions, n);
    NothingIsDeleted(c, trace, actions, n, k, r);
    forall id | id in s.workers ensures !s.workers[id].pc.DeleteWrite? && !Theorems.Completed(s, id) {
      NeverReady(c, c.yearStart(trace[0].now), V, Ever(c, trace, n), trace[0].archive, s, id, k, r);
    }
    assert k !in s.archive by { assert !CopiedInTime(c.batch, V, trace[0].archive, k, r); }
  }

  lemma NeverReady(c: Config, y: int, V: Db, E: Db, A: Db, s: State, id: nat, k: Key, r: Key)
    requires Inv(c, E, A, s) && SlotInv(c, y, V, A, s) && EligibleRows(E, y) == V && id in s.workers
    requires Refunds(V, k, r) && !CopiedInTime(c.batch, V, A, k, r)
    ensures !s.workers[id].pc.DeleteWrite? && !Theorems.Completed(s, id)
  {
    Knows(c, y, V, E, A, s, id);
    assert k !in s.archive;
    assert InsertIndex(k.table) < TABLES;
  }

  lemma DueIsThere(c: Config, s: State)
    ensures DueAt(c, s).Keys <= s.hot.Keys
  {
  }

  lemma NothingDeletedStep(c: Config, trace: seq<State>, actions: seq<Action>, n: nat, V: Db, k: Key, r: Key)
    requires IsRun(c, trace, actions) && LaunchesFit(c, trace, actions) && SameYear(c, trace, actions) && 0 < n < |trace|
    requires V == DueAt(c, trace[0]) && Refunds(V, k, r) && !CopiedInTime(c.batch, V, trace[0].archive, k, r)
    requires V.Keys <= trace[n - 1].hot.Keys
    ensures V.Keys <= trace[n].hot.Keys
  {
    hide *;
    StepOf(c, trace, actions, n);
    ReachedInSlots(c, trace, actions, n - 1);
    StaysInHot(c, c.yearStart(trace[0].now), V, Ever(c, trace, n - 1), trace[0].archive, trace[n - 1], actions[n - 1], k, r);
  }

  lemma {:induction false} NothingIsDeleted(c: Config, trace: seq<State>, actions: seq<Action>, n: nat, k: Key, r: Key)
    requires IsRun(c, trace, actions) && LaunchesFit(c, trace, actions) && SameYear(c, trace, actions) && n < |trace|
    requires var V := DueAt(c, trace[0]); Refunds(V, k, r) && !CopiedInTime(c.batch, V, trace[0].archive, k, r)
    ensures DueAt(c, trace[0]).Keys <= trace[n].hot.Keys
  {
    hide *;
    StartsInitial(c, trace, actions);
    DueIsThere(c, trace[0]);
    if n > 0 {
      NothingIsDeleted(c, trace, actions, n - 1, k, r);
      NothingDeletedStep(c, trace, actions, n, DueAt(c, trace[0]), k, r);
    }
  }

  lemma StaysInHot(c: Config, y: int, V: Db, E: Db, A: Db, s: State, a: Action, k: Key, r: Key)
    requires Inv(c, E, A, s) && SlotInv(c, y, V, A, s) && EligibleRows(E, y) == V && Calm(c, s, a)
    requires Refunds(V, k, r) && !CopiedInTime(c.batch, V, A, k, r)
    requires V.Keys <= s.hot.Keys
    ensures V.Keys <= Applied(c, s, a).hot.Keys
  {
    match a
    case Advance(w) =>
      NeverReady(c, y, V, E, A, s, w, k, r);
      Theorems.HotAfter(c, s, w);
    case OtherWriters(hot) =>
      forall t | t in V ensures t in hot { assert t in EligibleRows(s.hot, c.yearStart(s.now)); }
    case _ =>
  }

  // ---- a worker left alone -----------------------------------------------------

  predicate OnItsWay(s: State, id: nat) {
    id in s.workers && !s.workers[id].cut && s.now < s.workers[id].deadline && !s.workers[id].pc.Stopped?
  }

  function Stage(pc: Pc): nat {
    match pc
    case ForInsert(i) => if i <= TABLES then 2 * (16 - i) + 1 else 0
    case InsertLoop(i, _) => 2 * (16 - i)
    case InsertRead(i, _) => 2 * (16 - i)
    case InsertWrite(i, _) => 2 * (16 - i)
    case ForDelete(j) => if j <= TABLES then 2 * (8 - j) + 1 else 0
    case DeleteLoop(j) => 2 * (8 - j)
    case DeleteRead(j) => 2 * (8 - j)
    case DeleteWrite(j, _) => 2 * (8 - j)
    case _ => 0
  }

  /** How many rows of the table are left to go. */
  function Rest(hot: Db, w: Worker): nat {
    match w.pc
    case InsertLoop(i, cursor) => Remaining(hot, InsertTable(i), w.cutoff, cursor)
    case InsertRead(i, cursor) => Remaining(hot, InsertTable(i), w.cutoff, cursor)
    case InsertWrite(i, rows) => Remaining(hot, InsertTable(i), w.cutoff, LastId(rows))
    case DeleteWrite(j, ids) => |hot - KeysOf(DeleteTable(j), ids)|
    case _ => |hot|
  }

  function Within(pc: Pc): nat {
    match pc
    case InsertWrite(_, _) => 3
    case DeleteWrite(_, _) => 3
    case InsertLoop(_, _) => 2
    case DeleteLoop(_) => 2
    case InsertRead(_, _) => 1
    case DeleteRead(_) => 1
    case _ => 0
  }

  predicate Less(hot: Db, w: Worker, hot': Db, w': Worker) {
    || Stage(w'.pc) < Stage(w.pc)
    || (Stage(w'.pc) == Stage(w.pc) &&
        (Rest(hot', w') < Rest(hot, w) || (Rest(hot', w') == Rest(hot, w) && Within(w'.pc) < Within(w.pc))))
  }

  lemma HeadShrinks(c: Config, s: State, id: nat)
    requires OnItsWay(s, id) && AtLoopHead(s.workers[id].pc) && !s.workers[id].pc.Finished?
    requires s.workers[id].pc.ForInsert? ==> s.workers[id].pc.next <= TABLES
    requires s.workers[id].pc.ForDelete? ==> s.workers[id].pc.next <= TABLES
    ensures OnItsWay(Stepped(c, s, id), id)
    ensures Less(s.hot, s.workers[id], Stepped(c, s, id).hot, Stepped(c, s, id).workers[id])
  {
  }

  lemma InsertReadShrinks(c: Config, s: State, id: nat)
    requires c.batch > 0 && OnItsWay(s, id) && s.workers[id].pc.InsertRead?
    ensures OnItsWay(Stepped(c, s, id), id)
    ensures Less(s.hot, s.workers[id], Stepped(c, s, id).hot, Stepped(c, s, id).workers[id])
  {
    var w := s.workers[id];
    NextRowsCount(s.hot, InsertTable(w.pc.i), w.cutoff, w.pc.cursor, c.batch);
  }

  lemma DeleteReadShrinks(c: Config, s: State, id: nat)
    requires c.batch > 0 && OnItsWay(s, id) && s.workers[id].pc.DeleteRead?
    ensures OnItsWay(Stepped(c, s, id), id)
    ensures Less(s.hot, s.workers[id], Stepped(c, s, id).hot, Stepped(c, s, id).workers[id])
  {
    hide NextRows, InsertAccepted, InsertIgnore, DeleteAccepted, DeleteRows, EligibleIds;
    var w := s.workers[id];
    NextIdsCount(s.hot, DeleteTable(w.pc.j), w.cutoff, c.batch);
    SizeOfSome(NextIds(s.hot, DeleteTable(w.pc.j), w.cutoff, c.batch));
  }

  lemma SizeOfSome(ids: set<nat>)
    ensures ids != {} ==> |ids| > 0
  {
  }

  lemma InsertedShrinks(c: Config, s: State, id: nat, i: Pass, rows: Batch)
    requires OnItsWay(s, id) && s.workers[id].pc == InsertWrite(i, rows)
    ensures OnItsWay(Inserted(c, s, id, i, rows), id)
    ensures Less(s.hot, s.workers[id], Inserted(c, s, id, i, rows).hot, Inserted(c, s, id, i, rows).workers[id])
  {
  }

  lemma DeletedShrinks(c: Config, s: State, id: nat, j: Pass, ids: set<nat>)
    requires OnItsWay(s, id) && s.workers[id].pc == DeleteWrite(j, ids)
    requires DeleteRows(s.hot, KeysOf(DeleteTable(j), ids)) == s.hot - KeysOf(DeleteTable(j), ids)
    ensures OnItsWay(Deleted(c, s, id, j, ids), id)
    ensures Less(s.hot, s.workers[id], Deleted(c, s, id, j, ids).hot, Deleted(c, s, id, j, ids).workers[id])
  {
  }

  lemma WriteShrinks(c: Config, E: Db, A: Db, s: State, id: nat)
    requires Inv(c, E, A, s) && OnItsWay(s, id) && Passes(s, s.workers[id].pc)
    requires s.workers[id].pc.InsertWrite? || s.workers[id].pc.DeleteWrite?
    ensures OnItsWay(Stepped(c, s, id), id)
    ensures Less(s.hot, s.workers[id], Stepped(c, s, id).hot, Stepped(c, s, id).workers[id])
  {
    var w := s.workers[id];
    if w.pc.InsertWrite? {
      InsertedShrinks(c, s, id, w.pc.i, w.pc.rows);
    } else {
      OwnYear(c, E, A, s, id);
      DeleteVerdict(c.batch, w.cutoff, Due(c, E, w), s.archive, s.hot, s.archive, w.pc.j, w.pc.ids);
      DeletedShrinks(c, s, id, w.pc.j, w.pc.ids);
    }
  }

  lemma HeadsAreInRange(c: Config, E: Db, A: Db, s: State, id: nat)
    requires Inv(c, E, A, s) && id in s.workers
    ensures s.workers[id].pc.ForInsert? ==> s.workers[id].pc.next <= TABLES
    ensures s.workers[id].pc.ForDelete? ==> s.workers[id].pc.next <= TABLES
  {
    OwnYear(c, E, A, s, id);
  }

  lemma OneStepOn(c: Config, E: Db, A: Db, s: State, id: nat)
    requires Inv(c, E, A, s) && OnItsWay(s, id) && !s.workers[id].pc.Finished? && Passes(s, s.workers[id].pc)
    ensures OnItsWay(Stepped(c, s, id), id)
    ensures Less(s.hot, s.workers[id], Stepped(c, s, id).hot, Stepped(c, s, id).workers[id])
  {
    var pc := s.workers[id].pc;
    HeadsAreInRange(c, E, A, s, id);
    if AtLoopHead(pc) { HeadShrinks(c, s, id); }
    else if pc.InsertRead? { InsertReadShrinks(c, s, id); }
    else if pc.DeleteRead? { DeleteReadShrinks(c, s, id); }
    else { WriteShrinks(c, E, A, s, id); }
  }

  lemma AdvanceFirst(c: Config, s: State, id: nat, rest: seq<Action>)
    requires id in s.workers && OnlyAdvances(rest, id) && CanPlay(c, Stepped(c, s, id), rest)
    ensures OnlyAdvances([Advance(id)] + rest, id) && CanPlay(c, s, [Advance(id)] + rest)
    ensures End(c, s, [Advance(id)] + rest) == End(c, Stepped(c, s, id), rest)
  {
    OneAdvance(c, s, id);
    PlayOn(c, s, [Advance(id)], rest);
  }

  /** The worker came to the end, or to a batch that is rejected. */
  ghost predicate Settled(s: State, id: nat) {
    id in s.workers && (Theorems.Completed(s, id) || !Passes(s, s.workers[id].pc))
  }

  lemma {:induction false} LeftAlone(c: Config, E: Db, A: Db, s: State, id: nat) returns (actions: seq<Action>)
    requires Inv(c, E, A, s) && OnItsWay(s, id)
    ensures OnlyAdvances(actions, id) && CanPlay(c, s, actions) && Settled(End(c, s, actions), id)
    decreases Stage(s.workers[id].pc), Rest(s.hot, s.workers[id]), Within(s.workers[id].pc)
  {
    if Settled(s, id) {
      actions := [];
    } else {
      AdvanceKeeps(c, E, A, s, id);
      OneStepOn(c, E, A, s, id);
      var rest := LeftAlone(c, E, A, Stepped(c, s, id), id);
      AdvanceFirst(c, s, id, rest);
      actions := [Advance(id)] + rest;
    }
  }

  // ---- the exact condition -------------------------------------------------------

  ghost predicate NoneRejected(trace: seq<State>) {
    forall n, id | 0 <= n < |trace| && id in trace[n].workers :: Passes(trace[n], trace[n].workers[id].pc)
  }

  /** No foreign key rejects a batch in any run from here of workers of this year. */
  ghost predicate NeverRejects(c: Config, s: State) {
    forall trace, actions | IsRun(c, trace, actions) && LaunchesFit(c, trace, actions) && SameYear(c, trace, actions)
                            && trace[0] == s ::
      NoneRejected(trace)
  }

  /** Archival of a year is never rejected by a foreign key exactly when every refund
      is copied no later and deleted no earlier than its charge, by the batches both
      fall into. The condition is one on the data before the run. */
  lemma NeverRejectsIff(c: Config, s: State)
    requires Initial(c, s)
    ensures NeverRejects(c, s) <==> RefundsInSlots(c.batch, DueAt(c, s), s.archive)
  {
    if RefundsInSlots(c.batch, DueAt(c, s), s.archive) {
      forall trace: seq<State>, actions | IsRun(c, trace, actions) && LaunchesFit(c, trace, actions)
          && SameYear(c, trace, actions) && trace[0] == s
        ensures NoneRejected(trace)
      {
        forall n, id | 0 <= n < |trace| && id in trace[n].workers ensures Passes(trace[n], trace[n].workers[id].pc) {
          NoBatchIsRejected(c, trace, actions, n, id);
        }
      }
    } else {
      var trace, actions := RejectedRun(c, s);
      assert !NoneRejected(trace);
    }
  }

  lemma SoloLaunch(c: Config, s: State) returns (actions: seq<Action>)
    requires Initial(c, s)
    ensures actions != [] && actions[0] == Launch(0, 1) && OnlyAdvances(actions[1..], 0) && CanPlay(c, s, actions)
    ensures Settled(End(c, s, actions), 0)
  {
    var launch := Launch(0, 1);
    PlayOne(c, s, launch);
    InitialOk(c, s);
    EveryStepKeeps(c, DueAt(c, s), s.archive, s, launch);
    var s1 := Applied(c, s, launch);
    var rest := LeftAlone(c, Grown(c, DueAt(c, s), s1), s.archive, s1, 0);
    PlayOn(c, s, [launch], rest);
    actions := [launch] + rest;
    assert actions[1..] == rest;
  }

  /** One worker, launched at the start and left alone. */
  lemma RejectedRun(c: Config, s: State) returns (trace: seq<State>, actions: seq<Action>)
    requires Initial(c, s) && !RefundsInSlots(c.batch, DueAt(c, s), s.archive)
    ensures IsRun(c, trace, actions) && LaunchesFit(c, trace, actions) && SameYear(c, trace, actions) && trace[0] == s
    ensures 0 in trace[|actions|].workers && !Passes(trace[|actions|], trace[|actions|].workers[0].pc)
  {
    actions := SoloLaunch(c, s);
    PlayIsRun(c, s, actions);
    trace := Play(c, s, actions);
    forall n | 0 < n < |actions| ensures !actions[n].Launch? { assert actions[n] == actions[1..][n - 1]; }
    if Theorems.Completed(trace[|actions|], 0) { CompletedShowsSlots(c, trace, actions, |actions|, 0); }
  }

  /** On data that archival gets through, one worker launched at the start and left
      alone completes, before any time has passed. */
  lemma CompletingRun(c: Config, s: State) returns (trace: seq<State>, actions: seq<Action>)
    requires Initial(c, s) && RefundsInSlots(c.batch, DueAt(c, s), s.archive)
    ensures IsRun(c, trace, actions) && LaunchesFit(c, trace, actions) && SameYear(c, trace, actions) && trace[0] == s
    ensures Theorems.Completed(trace[|actions|], 0)
    ensures c.yearStart(trace[|actions|].workers[0].launched) == c.yearStart(s.now)
  {
    actions := SoloLaunch(c, s);
    PlayIsRun(c, s, actions);
    trace := Play(c, s, actions);
    forall n | 0 < n < |actions| ensures !actions[n].Launch? { assert actions[n] == actions[1..][n - 1]; }
    NoBatchIsRejected(c, trace, actions, |actions|, 0);
    SlotsReached(c, trace, actions, |actions|);
  }
}
