/** What the archive holds of a moved row. An archived timestamp has lost its
    microseconds (src/lib/jobs/archival.worker.ts:116-128, src/lib/knex/knex.ts:12). */
module ArchivalCopies {
  import opened Prelude
  import opened ArchivalTables
  import opened ArchivalBatches
  import opened ArchivalRefunds
  import opened ArchivalProtocol
  import opened ArchivalRuns
  import opened ArchivalRejections
  import Theorems = ArchivalTheorems
  import Years = ArchivalYears

  /** Every timestamp of the row is a whole number of milliseconds. */
  predicate WholeMs(r: Row) {
    && r.stamp % 1000 == 0
    && forall i :: 0 <= i < |r.times| && r.times[i].Some? ==> r.times[i].value % 1000 == 0
  }

  predicate CutBy(t: Option<int>, t': Option<int>) {
    if t.Some? then t'.Some? && 0 <= t.value - t'.value < 1000 && t'.value % 1000 == 0 else t'.None?
  }

  /** A copy is the row itself exactly when there is nothing to cut; a copy is whole,
      less than a millisecond earlier in every timestamp, and otherwise the same. */
  lemma ArchivedIsSameIff(r: Row)
    ensures var a := Archived(r);
      && CutBy(Some(r.stamp), Some(a.stamp)) && |a.times| == |r.times|
      && (forall i :: 0 <= i < |r.times| ==> CutBy(r.times[i], a.times[i]))
      && a == r.(stamp := a.stamp, times := a.times)
    ensures Archived(r) == r <==> WholeMs(r)
    ensures WholeMs(Archived(r)) && Archived(Archived(r)) == Archived(r)
  {
    forall i | 0 <= i < |r.times| ensures CutToMs(r.times[i]) == r.times[i] <==> r.times[i].None? || r.times[i].value % 1000 == 0 {}
    if Archived(r) == r {
      forall i | 0 <= i < |r.times| ensures r.times[i] == CutToMs(r.times[i]) { assert Archived(r).times[i] == r.times[i]; }
    }
    if WholeMs(r) { assert Archived(r).times == r.times; }
    assert Archived(Archived(r)).times == Archived(r).times;
  }

  /** Whatever happened in between: once a row has left hot, the archive holds its
      copy, which is the row as it was exactly when its timestamps were whole
      milliseconds. */
  lemma MovedRowIsUnchangedIff(c: Config, trace: seq<State>, actions: seq<Action>, m: nat, n: nat, k: Key)
    requires IsRun(c, trace, actions) && LaunchesFit(c, trace, actions) && m <= n < |trace|
    requires k in trace[m].hot && Eligible(trace[m].hot, k, c.yearStart(trace[m].now)) && k !in trace[n].hot
    ensures k in trace[n].archive && trace[n].archive[k] == Archived(trace[m].hot[k])
    ensures trace[n].archive[k] == trace[m].hot[k] <==> WholeMs(trace[m].hot[k])
  {
    Theorems.RowIsKept(c, trace, actions, m, n, k);
    ArchivedIsSameIff(trace[m].hot[k]);
  }

  // ---- the copy stays in its year ----------------------------------------------

  /** A year starts on a whole millisecond, so no cut moves a timestamp across it. */
  lemma CutStaysInYear(at: int, y: int)
    requires y % 1000 == 0
    ensures Ms(at) * 1000 < y <==> at < y
  {
  }

  lemma SameYearInArchive(cutoff: int, E: Db, A: Db, hot: Db, archive: Db, k: Key, y: int)
    requires ForeignKeysHold(E) && TablesOk(cutoff, E, A, hot, archive) && y % 1000 == 0 && k in E && k in archive
    ensures Eligible(archive, k, y) <==> Eligible(E, k, y)
  {
    CutStaysInYear(E[k].stamp, y);
    if k.table != Orders && k.table != WebhookEvents && E[k].order.Some? {
      var o := Key(Orders, E[k].order.value);
      assert o in Refs(k, E[k]) && o in Refs(k, archive[k]);
      CutStaysInYear(E[o].stamp, y);
    }
  }

  /** Every archived row lies in the same year, for every cutoff, as the row it was
      copied from: the reads that choose a database by the year find it. */
  lemma ArchivedRowKeepsItsYear(c: Config, trace: seq<State>, actions: seq<Action>, n: nat, k: Key, y: int)
    requires IsRun(c, trace, actions) && LaunchesFit(c, trace, actions) && n < |trace| && y % 1000 == 0
    requires k in trace[n].archive && k in Ever(c, trace, n)
    ensures Eligible(trace[n].archive, k, y) <==> Eligible(Ever(c, trace, n), k, y)
  {
    Reached(c, trace, actions, n);
    SameYearInArchive(c.yearStart(trace[n].now), Ever(c, trace, n), trace[0].archive, trace[n].hot, trace[n].archive, k, y);
  }

  // ---- the exact condition --------------------------------------------------------

  ghost predicate ExactlyKept(k: Key, row: Row, s: State) {
    (k in s.hot && s.hot[k] == row) || (k in s.archive && s.archive[k] == row)
  }

  /** Nothing is ever altered of the rows due now, in any history from here. */
  ghost predicate NeverAlters(c: Config, s: State) {
    forall trace, actions | IsRun(c, trace, actions) && LaunchesFit(c, trace, actions) && trace[0] == s ::
      Unaltered(DueAt(c, s), trace)
  }

  ghost predicate Unaltered(V: Db, trace: seq<State>) {
    forall n, k | 0 <= n < |trace| && k in V :: ExactlyKept(k, V[k], trace[n])
  }

  /** Where archival gets through, it alters nothing exactly when every timestamp of
      the rows due is a whole number of milliseconds. */
  lemma NeverAltersIff(c: Config, s: State)
    requires Initial(c, s) && RefundsInSlots(c.batch, DueAt(c, s), s.archive)
    ensures NeverAlters(c, s) <==> forall k :: k in DueAt(c, s) ==> WholeMs(s.hot[k])
  {
    var V := DueAt(c, s);
    if forall k :: k in V ==> WholeMs(s.hot[k]) {
      forall trace, actions | IsRun(c, trace, actions) && LaunchesFit(c, trace, actions) && trace[0] == s
        ensures Unaltered(V, trace)
      {
        WholeRowsStay(c, trace, actions);
      }
    } else {
      var k :| k in V && !WholeMs(s.hot[k]);
      var trace, actions := CompletingRun(c, s);
      LeavesAnother(c, trace, actions, k);
      assert !ExactlyKept(k, V[k], trace[|actions|]);
    }
  }

  lemma WholeRowsStay(c: Config, trace: seq<State>, actions: seq<Action>)
    requires IsRun(c, trace, actions) && LaunchesFit(c, trace, actions)
    requires forall k :: k in DueAt(c, trace[0]) ==> WholeMs(trace[0].hot[k])
    ensures Unaltered(DueAt(c, trace[0]), trace)
  {
    forall n, k | 0 <= n < |trace| && k in DueAt(c, trace[0]) ensures ExactlyKept(k, DueAt(c, trace[0])[k], trace[n]) {
      Theorems.RowIsKept(c, trace, actions, 0, n, k);
      ArchivedIsSameIff(trace[0].hot[k]);
    }
  }

  /** At the end of a completed run the row is nowhere. */
  lemma LeavesAnother(c: Config, trace: seq<State>, actions: seq<Action>, k: Key)
    requires IsRun(c, trace, actions) && LaunchesFit(c, trace, actions)
    requires Theorems.Completed(trace[|actions|], 0)
    requires c.yearStart(trace[|actions|].workers[0].launched) == c.yearStart(trace[0].now)
    requires k in DueAt(c, trace[0]) && !WholeMs(trace[0].hot[k])
    ensures !ExactlyKept(k, trace[0].hot[k], trace[|actions|])
  {
    var n := |actions|;
    Reached(c, trace, actions, n);
    DueStays(c, trace, actions, n);
    Theorems.CompletedState(c, Ever(c, trace, n), trace[0].archive, trace[n], 0);
    assert k in EligibleRows(Ever(c, trace, n), c.yearStart(trace[0].now));
    MovedRowIsUnchangedIff(c, trace, actions, 0, n, k);
  }

  /** One webhook event of the year before, received at no whole millisecond: after
      the first run of the year its time of receipt is nowhere to be found. */
  lemma MicrosecondsAreLost(c: Config, received: int, now: int)
    requires Calendar(c) && received < c.yearStart(now) && received % 1000 != 0
    ensures Initial(c, Years.Fresh(received, now)) && !NeverAlters(c, Years.Fresh(received, now))
  {
    var s := Years.Fresh(received, now);
    Years.OneEventFacts(received, c.yearStart(now));
    assert Years.EVENT in DueAt(c, s) && !WholeMs(s.hot[Years.EVENT]);
    NeverAltersIff(c, s);
  }
}
