/** Cold archival over every run (src/lib/jobs/archival.worker.ts): any number of
    workers, launches, kills and calendar years. */
module ArchivalTheorems {
  import opened Prelude
  import opened ArchivalTables
  import opened ArchivalBatches
  import opened ArchivalProtocol

  lemma EverStep(c: Config, trace: seq<State>, actions: seq<Action>, n: nat)
    requires IsRun(c, trace, actions) && LaunchesFit(c, trace, actions) && 0 < n < |trace|
    ensures Extends(Ever(c, trace, n - 1), Ever(c, trace, n))
  {
    hide IsRun, LaunchesFit, Calm, Applied, Inv, Grown, Extends;
    Reached(c, trace, actions, n - 1);
    StepOf(c, trace, actions, n);
    EveryStepKeeps(c, Ever(c, trace, n - 1), trace[0].archive, trace[n - 1], actions[n - 1]);
  }

  lemma ExtendsMore(a: Db, b: Db, c: Db)
    requires Extends(a, b) && Extends(b, c)
    ensures Extends(a, c)
  {
  }

  lemma {:induction false} EverGrows(c: Config, trace: seq<State>, actions: seq<Action>, m: nat, n: nat)
    requires IsRun(c, trace, actions) && LaunchesFit(c, trace, actions) && m <= n < |trace|
    ensures Extends(Ever(c, trace, m), Ever(c, trace, n))
  {
    hide IsRun, LaunchesFit, Ever;
    if m < n {
      EverGrows(c, trace, actions, m, n - 1);
      EverStep(c, trace, actions, n);
      ExtendsMore(Ever(c, trace, m), Ever(c, trace, n - 1), Ever(c, trace, n));
    }
  }

  lemma {:induction false} ArchiveGrows(c: Config, trace: seq<State>, actions: seq<Action>, m: nat, n: nat)
    requires IsRun(c, trace, actions) && m <= n < |trace|
    ensures Extends(trace[m].archive, trace[n].archive)
  {
    hide IsRun, Calm, Applied;
    if m < n {
      ArchiveGrows(c, trace, actions, m, n - 1);
      StepOf(c, trace, actions, n);
      ArchiveStep(c, trace[n - 1], actions[n - 1]);
      ExtendsMore(trace[m].archive, trace[n - 1].archive, trace[n].archive);
    }
  }

  lemma ArchiveStep(c: Config, s: State, a: Action)
    requires Calm(c, s, a)
    ensures Extends(s.archive, Applied(c, s, a).archive)
  {
  }

  lemma RowIsKept(c: Config, trace: seq<State>, actions: seq<Action>, m: nat, n: nat, k: Key)
    requires IsRun(c, trace, actions) && LaunchesFit(c, trace, actions) && m <= n < |trace|
    requires k in trace[m].hot && Eligible(trace[m].hot, k, c.yearStart(trace[m].now))
    ensures Kept(k, trace[m].hot[k], trace[n])
  {
    Reached(c, trace, actions, m);
    Reached(c, trace, actions, n);
    EverGrows(c, trace, actions, m, n);
    assert k in Ever(c, trace, m);
  }

  /** No row of a past year is ever lost: over any number of years, runs, workers and
      kills it stays as it is or its copy is in the archive, as long as no single run is given a budget that reaches
      into another year than the one it starts in. */
  lemma NoRowIsEverLost(c: Config, trace: seq<State>, actions: seq<Action>)
    requires IsRun(c, trace, actions) && LaunchesFit(c, trace, actions)
    ensures NothingLost(c, trace)
  {
    forall m, n, k | 0 <= m <= n < |trace| && k in trace[m].hot && Eligible(trace[m].hot, k, c.yearStart(trace[m].now))
      ensures Kept(k, trace[m].hot[k], trace[n])
    {
      RowIsKept(c, trace, actions, m, n, k);
    }
    forall m, n | 0 <= m <= n < |trace| ensures Extends(trace[m].archive, trace[n].archive) {
      ArchiveGrows(c, trace, actions, m, n);
    }
  }

  /** Every reachable moment can serve as the start of a new history: what a start
      asks of the two databases is what every history leaves, from an empty archive
      on. */
  lemma EveryMomentIsAStart(c: Config, trace: seq<State>, actions: seq<Action>, n: nat)
    requires IsRun(c, trace, actions) && LaunchesFit(c, trace, actions) && n < |trace|
    ensures Initial(c, trace[n].(workers := map[]))
  {
    Reached(c, trace, actions, n);
  }

  /** What a step may leave of hot: everything but archived eligible rows. */
  ghost predicate OnlyArchivedGone(V: Db, hot: Db, archive: Db, hot': Db) {
    && (forall k :: k in hot' ==> k in hot && hot'[k] == hot[k])
    && (forall k :: k in hot && k !in hot' ==> k in V && k in archive && archive[k] == Archived(hot[k]))
  }

  lemma DeletedAreArchived(batch: nat, y: int, V: Db, A: Db, hot: Db, archive: Db, j: Pass, ids: set<nat>)
    requires DeliveriesPointDown(V) && TablesOk(y, V, A, hot, archive)
    requires ReadyToDelete(V, hot, archive, j) && DeleteBatch(batch, V, hot, j, ids)
    ensures OnlyArchivedGone(V, hot, archive, DeleteRows(hot, KeysOf(DeleteTable(j), ids)))
  {
    DeleteVerdict(batch, y, V, A, hot, archive, j, ids);
    ReadyIsArchived(V, archive);
  }

  lemma HotAfter(c: Config, s: State, id: nat)
    requires id in s.workers
    ensures var pc, hot' := s.workers[id].pc, Stepped(c, s, id).hot;
      hot' == s.hot || (pc.DeleteWrite? && hot' == DeleteRows(s.hot, KeysOf(DeleteTable(pc.j), pc.ids)))
  {
  }

  lemma StepLeavesAlone(c: Config, E: Db, A: Db, s: State, id: nat)
    requires Inv(c, E, A, s) && id in s.workers
    ensures OnlyArchivedGone(E, s.hot, s.archive, Stepped(c, s, id).hot)
  {
    var w := s.workers[id];
    HotAfter(c, s, id);
    if w.pc.DeleteWrite? {
      OwnYear(c, E, A, s, id);
      DeletedAreArchived(c.batch, w.cutoff, Due(c, E, w), s.archive, s.hot, s.archive, w.pc.j, w.pc.ids);
    }
  }

  /** A delete statement only ever removes rows whose copies are in the archive, and a
      run whose budget ran out during pass 1 never gets to one. */
  lemma OnlyArchivedRowsAreDeleted(c: Config, trace: seq<State>, actions: seq<Action>, n: nat, id: nat)
    requires IsRun(c, trace, actions) && LaunchesFit(c, trace, actions) && n < |trace|
    requires id in trace[n].workers && trace[n].workers[id].pc.DeleteWrite?
    ensures !trace[n].workers[id].cut
    ensures forall k :: k in trace[n].hot && k !in Stepped(c, trace[n], id).hot ==>
              k in trace[n].archive && trace[n].archive[k] == Archived(trace[n].hot[k])
  {
    Reached(c, trace, actions, n);
    assert WorkerOk(c, Ever(c, trace, n), trace[n].hot, trace[n].archive, trace[n].now, trace[n].workers[id]);
    StepLeavesAlone(c, Ever(c, trace, n), trace[0].archive, trace[n], id);
  }

  ghost predicate NoOtherWriters(actions: seq<Action>) {
    forall n :: 0 <= n < |actions| ==> !actions[n].OtherWriters?
  }

  ghost predicate Untouched(hot: Db, E: Db, hot': Db) {
    && (forall k :: k in hot && k !in E ==> k in hot' && hot'[k] == hot[k])
    && (forall k :: k in hot' ==> k in hot && hot'[k] == hot[k])
  }

  lemma ActionLeavesAlone(c: Config, E: Db, A: Db, s: State, a: Action)
    requires Inv(c, E, A, s) && Calm(c, s, a) && !a.OtherWriters?
    ensures Untouched(s.hot, E, Applied(c, s, a).hot)
  {
    if a.Advance? { StepLeavesAlone(c, E, A, s, a.w); }
  }

  lemma YearUntouchedStep(c: Config, trace: seq<State>, actions: seq<Action>, n: nat)
    requires IsRun(c, trace, actions) && LaunchesFit(c, trace, actions) && NoOtherWriters(actions) && 0 < n < |trace|
    ensures Untouched(trace[n - 1].hot, Ever(c, trace, n - 1), trace[n].hot)
    ensures Extends(Ever(c, trace, n - 1), Ever(c, trace, n))
  {
    hide IsRun, LaunchesFit, Calm, Applied, Inv, Ever, Untouched, Extends, NoOtherWriters;
    EverStep(c, trace, actions, n);
    Reached(c, trace, actions, n - 1);
    StepOf(c, trace, actions, n);
    NotAWriter(actions, n - 1);
    ActionLeavesAlone(c, Ever(c, trace, n - 1), trace[0].archive, trace[n - 1], actions[n - 1]);
  }

  lemma StillUntouched(first: Db, E: Db, hot: Db, E': Db, hot': Db)
    requires Untouched(first, E, hot) && Untouched(hot, E, hot') && Extends(E, E')
    ensures Untouched(first, E', hot')
  {
  }

  /** Archival never touches a row of the current year, and adds none to hot. */
  lemma {:induction false} CurrentYearUntouched(c: Config, trace: seq<State>, actions: seq<Action>, n: nat)
    requires IsRun(c, trace, actions) && LaunchesFit(c, trace, actions) && NoOtherWriters(actions) && n < |trace|
    ensures Untouched(trace[0].hot, Ever(c, trace, n), trace[n].hot)
  {
    hide IsRun, LaunchesFit, NoOtherWriters;
    if n > 0 {
      CurrentYearUntouched(c, trace, actions, n - 1);
      YearUntouchedStep(c, trace, actions, n);
      StillUntouched(trace[0].hot, Ever(c, trace, n - 1), trace[n - 1].hot, Ever(c, trace, n), trace[n].hot);
    }
  }

  /** The foreign keys of both databases hold at every moment; a pending batch is
      let through by them unless it is one of transactions that separates a charge
      from its refund. */
  lemma BatchVerdicts(c: Config, trace: seq<State>, actions: seq<Action>, n: nat, id: nat)
    requires IsRun(c, trace, actions) && LaunchesFit(c, trace, actions) && n < |trace| && id in trace[n].workers
    ensures ForeignKeysHold(trace[n].hot) && ForeignKeysHold(trace[n].archive)
    ensures Verdicts(trace[n], trace[n].workers[id].pc)
  {
    Reached(c, trace, actions, n);
    var s, w := trace[n], trace[n].workers[id];
    var E := Ever(c, trace, n);
    OwnYear(c, E, trace[0].archive, s, id);
    if w.pc.InsertWrite? { InsertVerdict(c.batch, Due(c, E, w), s.archive, w.pc.i, w.pc.rows); }
    if w.pc.DeleteWrite? { DeleteVerdict(c.batch, w.cutoff, Due(c, E, w), s.archive, s.hot, s.archive, w.pc.j, w.pc.ids); }
  }

  ghost predicate Verdicts(s: State, pc: Pc) {
    match pc
    case InsertWrite(i, rows) =>
      && (InsertAccepted(s.archive, rows) <==> RefundsResolved(s.archive, rows))
      && (InsertTable(i) != Transactions ==> InsertAccepted(s.archive, rows))
    case DeleteWrite(j, ids) =>
      var ks := KeysOf(DeleteTable(j), ids);
      && (DeleteAccepted(s.hot, ks) <==> ChargesGoToo(s.hot, ks))
      && (DeleteTable(j) != Transactions ==> DeleteAccepted(s.hot, ks))
    case _ => true
  }

  ghost predicate Completed(s: State, id: nat) {
    id in s.workers && s.workers[id].pc.Finished? && !s.workers[id].cut
  }

  /** A run that finishes inside its budget, after any history over any number of
      years and next to any number of other workers, has moved everything of the
      years before its own; if its year is still the current one, the archive is
      exactly the old archive plus a copy of every row of a past year. */
  lemma CompletedRunMovesEverything(c: Config, trace: seq<State>, actions: seq<Action>, n: nat, id: nat)
    requires IsRun(c, trace, actions) && LaunchesFit(c, trace, actions) && n < |trace| && Completed(trace[n], id)
    ensures var E := Ever(c, trace, n); var y := c.yearStart(trace[n].workers[id].launched);
      && EligibleRows(trace[n].hot, y) == map[]
      && Extends(CopyOf(EligibleRows(E, y)), trace[n].archive)
      && (forall k :: k in trace[n].archive ==> k in trace[0].archive || k in E)
      && (y == c.yearStart(trace[n].now) ==> trace[n].archive == trace[0].archive + CopyOf(E))
    ensures var y := c.yearStart(trace[n].workers[id].launched);
      && (forall k :: k in trace[n].hot ==> NotBefore(trace[n].hot, k, y))
      && (forall k :: k in trace[n].archive && k !in trace[0].archive ==> Before(trace[n].archive, k, c.yearStart(trace[n].now)))
  {
    Reached(c, trace, actions, n);
    var y, s := c.yearStart(trace[n].workers[id].launched), trace[n];
    CompletedState(c, Ever(c, trace, n), trace[0].archive, s, id);
    hide IsRun, LaunchesFit, Completed;
    forall k | k in s.hot ensures NotBefore(s.hot, k, y) { assert k !in EligibleRows(s.hot, y); }
    forall k | k in s.archive && k !in trace[0].archive ensures Before(s.archive, k, c.yearStart(s.now)) {
      CopyIsBefore(c, Ever(c, trace, n), trace[0].archive, s, k);
    }
  }

  /** By its own time of creation or receipt, or by that of its order. */
  ghost predicate NotBefore(db: Db, k: Key, y: int)
    requires k in db
  {
    if k.table == Orders || k.table == WebhookEvents then db[k].stamp >= y
    else db[k].order.Some? && Key(Orders, db[k].order.value) in db ==> db[Key(Orders, db[k].order.value)].stamp >= y
  }

  ghost predicate Before(db: Db, k: Key, y: int)
    requires k in db
  {
    if k.table == Orders || k.table == WebhookEvents then db[k].stamp < y
    else db[k].order.Some? && Key(Orders, db[k].order.value) in db && db[Key(Orders, db[k].order.value)].stamp < y
  }

  lemma CopyIsBefore(c: Config, E: Db, A: Db, s: State, k: Key)
    requires Inv(c, E, A, s) && k in s.archive && k !in A
    ensures Before(s.archive, k, c.yearStart(s.now))
  {
    assert k in EligibleRows(E, c.yearStart(s.now));
    if k.table != Orders && k.table != WebhookEvents {
      var o := Key(Orders, E[k].order.value);
      assert o in Refs(k, s.archive[k]) && o in Refs(k, E[k]);
      assert o in E && o in s.archive;
    }
  }

  lemma CompletedState(c: Config, E: Db, A: Db, s: State, id: nat)
    requires Inv(c, E, A, s) && Completed(s, id)
    ensures var y := c.yearStart(s.workers[id].launched);
      && EligibleRows(s.hot, y) == map[]
      && Extends(CopyOf(EligibleRows(E, y)), s.archive)
      && (forall k :: k in s.archive ==> k in A || k in E)
      && (forall k :: k in EligibleRows(E, y) ==> k !in s.hot)
      && (y == c.yearStart(s.now) ==> s.archive == A + CopyOf(E))
  {
    var w := s.workers[id];
    OwnYear(c, E, A, s, id);
    AllMoved(w, c.yearStart(w.launched), Due(c, E, w), s.archive, s.hot, s.archive, c.batch);
    if c.yearStart(w.launched) == c.yearStart(s.now) { ArchiveIsAll(c.yearStart(s.now), E, A, s.hot, s.archive); }
  }

  lemma AllMoved(w: Worker, y: int, V: Db, A: Db, hot: Db, archive: Db, batch: nat)
    requires TablesOk(y, V, A, hot, archive) && PcOk(batch, y, V, hot, archive, w) && w.pc.Finished? && !w.cut
    ensures EligibleRows(hot, y) == map[] && Extends(CopyOf(V), archive) && forall k :: k in V ==> k !in hot
  {
    ReadyIsArchived(V, archive);
    ClearedIsGone(V, hot);
  }

  lemma ArchiveIsAll(y: int, E: Db, A: Db, hot: Db, archive: Db)
    requires TablesOk(y, E, A, hot, archive) && forall k :: k in E ==> k in archive
    ensures archive == A + CopyOf(E)
  {
  }

  lemma ClearedIsGone(V: Db, hot: Db)
    requires Cleared(V, hot, TABLES)
    ensures forall k :: k in V ==> k !in hot
  {
    forall k | k in V ensures k !in hot { assert DeleteIndex(k.table) < TABLES; }
  }

  /** While the year does not change no row becomes one of a past year. */
  lemma {:induction false} EverWithinAYear(c: Config, trace: seq<State>, actions: seq<Action>, n: nat)
    requires IsRun(c, trace, actions) && LaunchesFit(c, trace, actions) && n < |trace|
    requires c.yearStart(trace[n].now) == c.yearStart(trace[0].now)
    ensures Ever(c, trace, n) == EligibleRows(trace[0].hot, c.yearStart(trace[0].now))
  {
    hide IsRun, LaunchesFit, Calm, Inv, Grown;
    if n > 0 {
      StepOf(c, trace, actions, n);
      ClockGoesForward(c, trace, actions, 0, n - 1);
      ClockGoesForward(c, trace, actions, n - 1, n);
      YearGoesForward(c, trace, actions, 0, n - 1);
      YearGoesForward(c, trace, actions, n - 1, n);
      EverWithinAYear(c, trace, actions, n - 1);
      Reached(c, trace, actions, n - 1);
      EverStaysPut(c, Ever(c, trace, n - 1), trace[0].archive, trace[n - 1], actions[n - 1]);
    }
  }

  lemma EverStaysPut(c: Config, E: Db, A: Db, s: State, a: Action)
    requires Inv(c, E, A, s) && Calm(c, s, a) && c.yearStart(Applied(c, s, a).now) == c.yearStart(s.now)
    requires a.Launch? ==> InOneYear(c, s.now, s.now + a.budget)
    ensures Grown(c, E, Applied(c, s, a)) == E
  {
    var s' := Applied(c, s, a);
    match a
    case Tick(_) => NothingNew(c.yearStart(s.now), E, A, s.hot, s.archive);
    case OtherWriters(hot) => OtherRowsOk(c, E, A, s, hot); NothingNew(c.yearStart(s.now), E, A, hot, s.archive);
    case Advance(w) => AdvanceKeeps(c, E, A, s, w); NothingNew(c.yearStart(s.now), E, A, s'.hot, s'.archive);
    case _ => NothingNew(c.yearStart(s.now), E, A, s.hot, s.archive);
  }

  lemma {:induction false} ClockGoesForward(c: Config, trace: seq<State>, actions: seq<Action>, m: nat, n: nat)
    requires IsRun(c, trace, actions) && m <= n < |trace|
    ensures trace[m].now <= trace[n].now
  {
    hide IsRun;
    if m < n {
      ClockGoesForward(c, trace, actions, m, n - 1);
      StepOf(c, trace, actions, n);
    }
  }

  lemma YearGoesForward(c: Config, trace: seq<State>, actions: seq<Action>, m: nat, n: nat)
    requires IsRun(c, trace, actions) && m <= n < |trace|
    ensures c.yearStart(trace[m].now) <= c.yearStart(trace[n].now)
  {
    ClockGoesForward(c, trace, actions, m, n);
    assert Calendar(c);
  }

  lemma NotAWriter(actions: seq<Action>, m: nat)
    requires NoOtherWriters(actions) && m < |actions|
    ensures !actions[m].OtherWriters?
  {
  }

  lemma StartKeys(c: Config, trace: seq<State>, actions: seq<Action>)
    requires IsRun(c, trace, actions)
    ensures ForeignKeysHold(trace[0].hot)
  {
  }

  /** Without other writers the rows of past years are those the start had. */
  lemma {:induction false} EverWithoutWriters(c: Config, trace: seq<State>, actions: seq<Action>, n: nat)
    requires IsRun(c, trace, actions) && LaunchesFit(c, trace, actions) && NoOtherWriters(actions) && n < |trace|
    ensures Ever(c, trace, n) == EligibleRows(trace[0].hot, c.yearStart(trace[n].now))
  {
    hide IsRun, LaunchesFit, Calm, Applied, Inv, Grown, Untouched, ForeignKeysHold, NoOtherWriters, EligibleRows;
    if n > 0 {
      StepOf(c, trace, actions, n);
      NotAWriter(actions, n - 1);
      StartKeys(c, trace, actions);
      EverWithoutWriters(c, trace, actions, n - 1);
      Reached(c, trace, actions, n - 1);
      CurrentYearUntouched(c, trace, actions, n - 1);
      PastYearsStep(c, trace[0].hot, Ever(c, trace, n - 1), trace[0].archive, trace[n - 1], actions[n - 1]);
    }
  }

  lemma PastYearsStep(c: Config, first: Db, E: Db, A: Db, s: State, a: Action)
    requires ForeignKeysHold(first) && Calm(c, s, a) && !a.OtherWriters?
    requires a.Launch? ==> InOneYear(c, s.now, s.now + a.budget)
    requires Inv(c, E, A, s) && E == EligibleRows(first, c.yearStart(s.now)) && Untouched(first, E, s.hot)
    ensures Grown(c, E, Applied(c, s, a)) == EligibleRows(first, c.yearStart(Applied(c, s, a).now))
  {
    if a.Tick? {
      YearAdds(first, E, s.hot, c.yearStart(s.now), c.yearStart(s.now + a.elapsed));
    } else {
      SameClock(c, s, a);
      EverStaysPut(c, E, A, s, a);
    }
  }

  lemma SameClock(c: Config, s: State, a: Action)
    requires Calm(c, s, a) && !a.Tick?
    ensures Applied(c, s, a).now == s.now
  {
  }

  lemma YearAdds(first: Db, E: Db, hot: Db, y: int, y': int)
    requires ForeignKeysHold(first) && ForeignKeysHold(hot) && y <= y'
    requires E == EligibleRows(first, y) && Untouched(first, E, hot)
    ensures E + EligibleRows(hot, y') == EligibleRows(first, y')
  {
    forall k | k in hot ensures Eligible(hot, k, y') <==> Eligible(first, k, y') {
      SameVerdict(hot, first, k, y');
    }
    forall k | k in first && Eligible(first, k, y) ensures Eligible(first, k, y') {}
  }

  /** Convergence: two histories that start alike, however killed, interleaved and
      spread over years, that each end in a completed run of the same, still current
      year, end in the same two databases. Beside other writers, who may do in hot
      what they like with the current year, this holds of the archive while the
      year of the start lasts. */
  lemma Convergence(c: Config, t1: seq<State>, as1: seq<Action>, n1: nat, id1: nat,
                    t2: seq<State>, as2: seq<Action>, n2: nat, id2: nat, y: int)
    requires IsRun(c, t1, as1) && LaunchesFit(c, t1, as1) && n1 < |t1| && Completed(t1[n1], id1)
    requires IsRun(c, t2, as2) && LaunchesFit(c, t2, as2) && n2 < |t2| && Completed(t2[n2], id2)
    requires t1[0].hot == t2[0].hot && t1[0].archive == t2[0].archive
    requires c.yearStart(t1[n1].workers[id1].launched) == y == c.yearStart(t1[n1].now)
    requires c.yearStart(t2[n2].workers[id2].launched) == y == c.yearStart(t2[n2].now)
    ensures NoOtherWriters(as1) && NoOtherWriters(as2) ==> t1[n1].hot == t2[n2].hot && t1[n1].archive == t2[n2].archive
    ensures c.yearStart(t1[0].now) == y == c.yearStart(t2[0].now) ==> t1[n1].archive == t2[n2].archive
  {
    CompletedRunMovesEverything(c, t1, as1, n1, id1);
    CompletedRunMovesEverything(c, t2, as2, n2, id2);
    if NoOtherWriters(as1) && NoOtherWriters(as2) {
      HotAtTheEnd(c, t1, as1, n1, id1);
      HotAtTheEnd(c, t2, as2, n2, id2);
    }
    if c.yearStart(t1[0].now) == y == c.yearStart(t2[0].now) {
      EverWithinAYear(c, t1, as1, n1);
      EverWithinAYear(c, t2, as2, n2);
    }
  }

  lemma HotAtTheEnd(c: Config, trace: seq<State>, actions: seq<Action>, n: nat, id: nat)
    requires IsRun(c, trace, actions) && LaunchesFit(c, trace, actions) && NoOtherWriters(actions)
    requires n < |trace| && Completed(trace[n], id)
    requires c.yearStart(trace[n].workers[id].launched) == c.yearStart(trace[n].now)
    ensures var E := EligibleRows(trace[0].hot, c.yearStart(trace[n].now));
      Ever(c, trace, n) == E && trace[n].hot == trace[0].hot - E.Keys
  {
    EverWithoutWriters(c, trace, actions, n);
    CurrentYearUntouched(c, trace, actions, n);
    CompletedRunMovesEverything(c, trace, actions, n, id);
    var E, s := Ever(c, trace, n), trace[n];
    Reached(c, trace, actions, n);
    CompletedState(c, E, trace[0].archive, s, id);
    forall k ensures k in s.hot <==> k in trace[0].hot && k !in E {}
  }
}
