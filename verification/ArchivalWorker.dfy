/** One archival run as the program it is (src/lib/jobs/archival.worker.ts):
    the two passes with their loops, the runtime budget, the keep-alive and the
    lock, over a hot and an archive database that the statements update. */
module ArchivalWorker {
  import opened Prelude
  import opened ArchivalTables
  import opened ArchivalBatches
  import opened ArchivalRefunds
  import Cut = ArchivalSlots
  import Protocol = ArchivalProtocol
  import Theorems = ArchivalTheorems
  import Lock = ArchivalLock

  /** Time passes while statements run. */
  class Clock {
    var now: int

    constructor (start: int) { now := start; }

    method Elapse()
      modifies this
      ensures now >= old(now)
    {
      var d: int :| d >= 0;
      now := now + d;
    }
  }

  class RuntimeBudget {
    const deadline: int

    constructor (now: int, maxRuntime: nat)
      ensures deadline == now + maxRuntime
    {
      deadline := now + maxRuntime;
    }

    predicate Exceeded(now: int) {
      now >= deadline
    }
  }

  datatype Failure = ForeignKeyViolation(table: Table)

  datatype Summary = Summary(totalMoved: nat, inserted: seq<(Table, nat)>, deleted: seq<(Table, nat)>)

  function Total(counts: seq<(Table, nat)>): nat {
    if counts == [] then 0 else Total(counts[..|counts| - 1]) + counts[|counts| - 1].1
  }

  // ---- what a run that fits into one year knows ---------------------------------

  /** y: the run's cutoff; E: the rows it is to move; A: the archive it found. */
  datatype Job = Job(batch: nat, y: int, E: Db, A: Db)

  /** The databases are somewhere on the way the protocol allows. */
  ghost predicate On(job: Job, hot: Db, archive: Db) {
    && job.batch > 0 && ClosedFamilies(job.E)
    && TablesOk(job.y, job.E, job.A, hot, archive)
    && Slots(job.batch, job.E, job.A, hot, archive)
  }

  ghost predicate InsertReady(job: Job, archive: Db, i: Pass, cursor: nat)
    requires job.batch > 0
  {
    CopiedUpTo(job.E, archive, i, cursor) && CursorInSlots(job.batch, job.E, archive, i, cursor)
  }

  /** Until the deadline every cutoff computed is the run's. */
  ghost predicate OneCutoff(job: Job, yearStart: int -> int, now: int, deadline: int) {
    forall t :: now <= t < deadline ==> yearStart(t) == job.y
  }

  ghost predicate InSlots(job: Job)
    requires job.batch > 0
  {
    RefundsInSlots(job.batch, job.E, job.A)
  }

  lemma OwnView(job: Job, hot: Db, archive: Db)
    requires On(job, hot, archive)
    ensures TablesOk(job.y, job.E, archive, hot, archive)
  {
  }

  lemma PassStarts(job: Job, archive: Db, i: Pass)
    requires job.batch > 0 && Copied(job.E, archive, i)
    ensures InsertReady(job, archive, i, 0)
  {
    Cut.StartIsAligned(Payments(job.E), job.batch);
  }

  /** One turn of the pass 1 loop, on values. */
  lemma InsertTurn(job: Job, hot: Db, archive: Db, i: Pass, cursor: nat)
    requires On(job, hot, archive) && InsertReady(job, archive, i, cursor)
    ensures var rows := NextRows(hot, InsertTable(i), job.y, cursor, job.batch);
            var archive' := ArchiveAfter(archive, rows);
      && On(job, hot, archive')
      && (InsertAccepted(archive, rows) ==>
            if |rows| < job.batch then Copied(job.E, archive', i + 1)
            else |rows| > 0 && InsertReady(job, archive', i, LastId(rows)))
      && (!InsertAccepted(archive, rows) ==> InsertTable(i) == Transactions && !InSlots(job))
  {
    var rows := NextRows(hot, InsertTable(i), job.y, cursor, job.batch);
    OwnView(job, hot, archive);
    InsertIteration(job.batch, job.y, job.E, job.A, hot, archive, i, cursor);
    SelectInsert(job.batch, job.y, job.E, job.A, hot, archive, i, cursor);
    SelectedRowsInSlot(job.batch, job.y, job.E, job.A, hot, archive, i, cursor);
    if InsertAccepted(archive, rows) {
      SlotsAfterInsert(job.batch, job.E, job.A, hot, archive, i, rows);
    } else if InSlots(job) {
      InSlotsIsAccepted(job.batch, job.E, job.A, archive, i, rows);
    }
  }

  /** One turn of the pass 2 loop, on values. */
  lemma DeleteTurn(job: Job, hot: Db, archive: Db, j: Pass)
    requires On(job, hot, archive) && ReadyToDelete(job.E, hot, archive, j)
    ensures var ids := NextIds(hot, DeleteTable(j), job.y, job.batch); var ks := KeysOf(DeleteTable(j), ids);
      && DeleteRows(hot, ks) == hot - ks && ks <= job.E.Keys
      && (DeleteAccepted(hot, ks) ==>
            && On(job, hot - ks, archive) && Cleared(job.E, hot - ks, j)
            && (|ids| < job.batch ==> Cleared(job.E, hot - ks, j + 1)))
      && (!DeleteAccepted(hot, ks) ==> DeleteTable(j) == Transactions && !InSlots(job))
  {
    var ids := NextIds(hot, DeleteTable(j), job.y, job.batch);
    var ks := KeysOf(DeleteTable(j), ids);
    OwnView(job, hot, archive);
    DeleteIteration(job.batch, job.y, job.E, job.A, hot, archive, j);
    SelectDelete(job.batch, job.y, job.E, job.A, hot, archive, j);
    SelectedIdsInSlot(job.batch, job.y, job.E, job.A, hot, archive, j);
    if DeleteAccepted(hot, ks) {
      SlotsAfterDelete(job.batch, job.y, job.E, job.A, hot, archive, j, ids);
    } else if InSlots(job) {
      InSlotsIsDeletable(job.batch, job.y, job.E, job.A, hot, archive, j, ids);
    }
  }

  /** The same for the statement as the method writes it. */
  lemma DeleteStep(job: Job, hot: Db, archive: Db, j: Pass, n: nat, ok: bool, after: Db)
    requires On(job, hot, archive) && ReadyToDelete(job.E, hot, archive, j)
    requires var ids := NextIds(hot, DeleteTable(j), job.y, job.batch); var ks := KeysOf(DeleteTable(j), ids);
      n == |ids| && ok == DeleteAccepted(hot, ks) && after == if ok then DeleteRows(hot, ks) else hot
    ensures On(job, after, archive) && Cleared(job.E, after, j) && OnlyLost(hot, after, job.E)
    ensures LostFrom(hot, after, DeleteTable(j))
    ensures ok ==> |after| + n == |hot| && (n < job.batch ==> Cleared(job.E, after, j + 1))
    ensures !ok ==> after == hot && DeleteTable(j) == Transactions && !InSlots(job)
  {
    DeleteTurn(job, hot, archive, j);
    NextIdsCount(hot, DeleteTable(j), job.y, job.batch);
  }

  lemma DeleteShrinks(hot: Db, t: Table, cutoff: int, size: nat)
    ensures var ids := NextIds(hot, t, cutoff, size);
      |DeleteRows(hot, KeysOf(t, ids))| + |ids| <= |hot|
  {
    var ks := KeysOf(t, NextIds(hot, t, cutoff, size));
    NextIdsCount(hot, t, cutoff, size);
    Fewer(hot, ks, ks + Cascade(hot, ks));
  }

  lemma Fewer(db: Db, some: set<Key>, more: set<Key>)
    requires some <= more
    ensures |db - more| <= |db - some|
  {
    var a, b := (db - more).Keys, (db - some).Keys;
    assert a <= b && b == a + (b - a);
    assert |db - more| == |a| && |db - some| == |b|;
  }

  /** after is before without some of the rows of E. */
  ghost predicate OnlyLost(before: Db, after: Db, E: Db) {
    && (forall k :: k in after ==> k in before && after[k] == before[k])
    && (forall k :: k in before && k !in after ==> k in E)
  }

  lemma OnlyLostAgain(a: Db, b: Db, c: Db, E: Db)
    requires OnlyLost(a, b, E) && OnlyLost(b, c, E)
    ensures OnlyLost(a, c, E)
  {
  }

  /** What a run has to show for itself, on values. */
  ghost predicate NothingGone(hot: Db, hot': Db, archive': Db) {
    forall k :: k in hot ==> (k in hot' && hot'[k] == hot[k]) || (k in archive' && archive'[k] == Archived(hot[k]))
  }

  ghost predicate Startable(hot: Db, archive: Db) {
    && ForeignKeysHold(hot) && SameFamily(hot) && DeliveriesPointDown(hot) && ForeignKeysHold(archive)
    && forall k :: k in hot && k in archive ==> archive[k] == Archived(hot[k])
  }

  lemma StartOk(job: Job, hot: Db)
    requires job.batch > 0 && Startable(hot, job.A) && job.E == EligibleRows(hot, job.y)
    ensures On(job, hot, job.A) && Copied(job.E, job.A, 0)
  {
    Protocol.YearOfHot(hot, job.y);
    SlotsAtStart(job.batch, job.E, hot, job.A);
  }

  lemma EndOk(job: Job, before: Db, hot: Db, archive: Db)
    requires On(job, hot, archive) && Startable(before, job.A) && OnlyLost(before, hot, job.E)
    requires job.E == EligibleRows(before, job.y)
    ensures Startable(hot, archive) && NothingGone(before, hot, archive)
    ensures job.E == map[] ==> hot == before
  {
    forall k | k in before ensures (k in hot && hot[k] == before[k]) || (k in archive && archive[k] == Archived(before[k])) {}
  }

  lemma DoneOk(job: Job, before: Db, hot: Db, archive: Db)
    requires On(job, hot, archive) && OnlyLost(before, hot, job.E) && ReadyToDelete(job.E, hot, archive, TABLES)
    ensures hot == before - job.E.Keys && archive == job.A + CopyOf(job.E) && InSlots(job)
  {
    ReadyIsArchived(job.E, archive);
    Theorems.ClearedIsGone(job.E, hot);
    Theorems.ArchiveIsAll(job.y, job.E, job.A, hot, archive);
    DoneWasInSlots(job.batch, job.E, job.A, hot, archive);
  }

  // ---- what a run answers ---------------------------------------------------------

  const PASS1: seq<Table> :=
    [Orders, OrderItems, Transactions, PaymentSessions, WebhookEvents, Deliveries, AgentEarnings]

  const PASS2: seq<Table> :=
    [AgentEarnings, Deliveries, WebhookEvents, PaymentSessions, Transactions, OrderItems, Orders]

  function Of(db: Db, t: Table): set<Key> {
    set k | k in db && k.table == t
  }

  /** The rows of the table that are gone. */
  function Gone(before: Db, after: Db, t: Table): set<Key> {
    Of(before, t) - Of(after, t)
  }

  /** One entry for each table dealt with, in the order of the pass. */
  ghost predicate Names(counts: seq<(Table, nat)>, order: seq<Table>) {
    |counts| <= |order| && forall i :: 0 <= i < |counts| ==> counts[i].0 == order[i]
  }

  /** Every entry counts what left hot of its table, and no other table lost a row. */
  ghost predicate CountsGone(deleted: seq<(Table, nat)>, before: Db, after: Db) {
    && Names(deleted, PASS2)
    && (forall j :: 0 <= j < |deleted| ==> deleted[j].1 == |Gone(before, after, deleted[j].0)|)
    && (forall k :: k in before && k !in after ==> DeleteIndex(k.table) < |deleted|)
  }

  /** Every entry but the last counts all rows due of its table; no entry counts more
      than what is archived of them. */
  ghost predicate CountsCopied(inserted: seq<(Table, nat)>, E: Db, archive: Db) {
    && Names(inserted, PASS1)
    && (forall i :: 0 <= i < |inserted| ==> inserted[i].1 <= |Of(E, inserted[i].0) * archive.Keys|)
    && (forall i :: 0 <= i < |inserted| - 1 ==> inserted[i].1 == |Of(E, inserted[i].0)|)
  }

  ghost predicate Complete(inserted: seq<(Table, nat)>, E: Db) {
    forall i :: 0 <= i < |inserted| ==> inserted[i].1 == |Of(E, inserted[i].0)|
  }

  ghost predicate CountsAll(inserted: seq<(Table, nat)>, E: Db) {
    Names(inserted, PASS1) && |inserted| == 7 && Complete(inserted, E)
  }

  /** The answer of a run: pass 2 is not begun before pass 1 has copied and counted
      everything, and a run in time went through all tables twice. */
  ghost predicate Tells(answer: Summary, E: Db, before: Db, after: Db, archive: Db, inTime: bool) {
    && answer.totalMoved + |after| == |before|
    && CountsGone(answer.deleted, before, after)
    && CountsCopied(answer.inserted, E, archive)
    && (answer.deleted != [] || inTime ==> CountsAll(answer.inserted, E))
    && (inTime ==> |answer.deleted| == 7)
  }

  lemma OrdersAre(i: Pass)
    ensures PASS1[i] == InsertTable(i) && PASS2[i] == DeleteTable(i)
  {
  }

  ghost predicate LostFrom(before: Db, after: Db, t: Table) {
    && (forall k :: k in after ==> k in before)
    && (forall k :: k in before && k !in after ==> k.table == t)
  }

  lemma LostFromAgain(a: Db, b: Db, c: Db, t: Table)
    requires LostFrom(a, b, t) && LostFrom(b, c, t)
    ensures LostFrom(a, c, t)
  {
  }

  lemma SizeOfParts(whole: set<Key>, part: set<Key>)
    requires part <= whole
    ensures |whole - part| + |part| == |whole|
  {
    assert whole == (whole - part) + part;
  }

  lemma GoneIsAll(before: Db, after: Db, t: Table)
    requires LostFrom(before, after, t)
    ensures |Gone(before, after, t)| + |after| == |before|
  {
    assert Gone(before, after, t) == before.Keys - after.Keys;
    SizeOfParts(before.Keys, after.Keys);
  }

  lemma GoneBefore(first: Db, before: Db, after: Db, t: Table, u: Table)
    requires LostFrom(before, after, t) && u != t
    ensures Gone(first, after, u) == Gone(first, before, u)
  {
  }

  lemma GoneNow(first: Db, before: Db, after: Db, t: Table)
    requires LostFrom(before, after, t) && (forall k :: k in before ==> k in first)
    requires forall k :: k in first && k !in before ==> k.table != t
    ensures Gone(first, after, t) == Gone(before, after, t)
  {
  }

  lemma LostSoFar(first: Db, before: Db, after: Db, j: Pass)
    requires LostFrom(before, after, DeleteTable(j))
    requires forall k :: k in first && k !in before ==> DeleteIndex(k.table) < j
    ensures forall k :: k in first && k !in after ==> DeleteIndex(k.table) < j + 1
  {
  }

  lemma CountsStay(deleted: seq<(Table, nat)>, first: Db, before: Db, after: Db, t: Table)
    requires Names(deleted, PASS2) && |deleted| < TABLES && t == PASS2[|deleted|] && LostFrom(before, after, t)
    requires forall j :: 0 <= j < |deleted| ==> deleted[j].1 == |Gone(first, before, deleted[j].0)|
    ensures forall j :: 0 <= j < |deleted| ==> deleted[j].1 == |Gone(first, after, deleted[j].0)|
  {
    hide Gone, LostFrom;
    forall j | 0 <= j < |deleted| ensures deleted[j].1 == |Gone(first, after, deleted[j].0)| {
      OrdersAre(j);
      OrdersAre(|deleted|);
      GoneBefore(first, before, after, t, deleted[j].0);
    }
  }

  lemma NamesMore(counts: seq<(Table, nat)>, order: seq<Table>, n: nat)
    requires Names(counts, order) && |counts| < |order|
    ensures Names(counts + [(order[|counts|], n)], order)
  {
  }

  /** One more table of pass 2. */
  lemma CountOneMore(deleted: seq<(Table, nat)>, first: Db, before: Db, after: Db, n: nat)
    requires CountsGone(deleted, first, before) && |deleted| < TABLES && (forall k :: k in before ==> k in first)
    requires LostFrom(before, after, DeleteTable(|deleted|)) && n + |after| == |before|
    ensures CountsGone(deleted + [(DeleteTable(|deleted|), n)], first, after)
  {
    var t := DeleteTable(|deleted|);
    OrdersAre(|deleted|);
    LostSoFar(first, before, after, |deleted|);
    GoneIsAll(before, after, t);
    GoneNow(first, before, after, t);
    CountsStay(deleted, first, before, after, t);
    NamesMore(deleted, PASS2, n);
    hide Gone, LostFrom, Names;
  }

  /** All rows due of a table, counted past cursor 0. */
  lemma DueOfTable(hot: Db, y: int, t: Table)
    ensures Remaining(hot, t, y, 0) == |Of(EligibleRows(hot, y), t)|
  {
    var ids := EligibleIds(hot, t, y);
    EligibleIdsAre(hot, t, y);
    assert Beyond(ids, 0) == ids;
    KeysOfSize(t, ids);
    forall k: Key | k.table == t ensures k in KeysOf(t, ids) <==> k in EligibleRows(hot, y) { assert k == Key(t, k.id); }
    assert KeysOf(t, ids) == Of(EligibleRows(hot, y), t);
  }

  lemma UpToCursor(ids: set<nat>, cursor: nat)
    requires forall i :: i in ids ==> i >= 1
    ensures Beyond(ids, 0) == ids && |ids - Beyond(ids, cursor)| + |Beyond(ids, cursor)| == |ids|
  {
    assert ids == (ids - Beyond(ids, cursor)) + Beyond(ids, cursor);
  }

  /** What was counted up to the cursor is archived. */
  lemma CountedIsCopied(job: Job, hot: Db, archive: Db, i: Pass, cursor: nat, moved: nat)
    requires job.E == EligibleRows(hot, job.y) && CopiedUpTo(job.E, archive, i, cursor)
    requires moved + Remaining(hot, InsertTable(i), job.y, cursor) == Remaining(hot, InsertTable(i), job.y, 0)
    ensures moved <= |Of(job.E, InsertTable(i)) * archive.Keys|
  {
    var t := InsertTable(i);
    var ids := EligibleIds(hot, t, job.y);
    EligibleIdsAre(hot, t, job.y);
    assert forall i :: i in ids ==> i >= 1;
    UpToCursor(ids, cursor);
    var done, copied := ids - Beyond(ids, cursor), Of(job.E, t) * archive.Keys;
    KeysOfSize(t, done);
    forall k | k in KeysOf(t, done) ensures k in copied {
      assert k == Key(t, k.id) && k in job.E && k.id <= cursor;
    }
    assert KeysOf(t, done) <= copied;
    SizeOfParts(copied, KeysOf(t, done));
  }

  lemma CountedSoFar(job: Job, hot: Db, archive: Db, i: Pass, cursor: nat, moved: nat)
    requires On(job, hot, archive) && InsertReady(job, archive, i, cursor) && job.E == EligibleRows(hot, job.y)
    requires moved + Remaining(hot, InsertTable(i), job.y, cursor) == Remaining(hot, InsertTable(i), job.y, 0)
    ensures moved <= |Of(job.E, InsertTable(i)) * archive.Keys|
  {
    CountedIsCopied(job, hot, archive, i, cursor, moved);
  }

  lemma CopiedIsAll(E: Db, archive: Db, i: Pass)
    requires Copied(E, archive, i + 1)
    ensures Of(E, InsertTable(i)) * archive.Keys == Of(E, InsertTable(i))
  {
  }

  lemma MoreIsArchived(E: Db, archive: Db, archive': Db, t: Table)
    requires archive.Keys <= archive'.Keys
    ensures |Of(E, t) * archive.Keys| <= |Of(E, t) * archive'.Keys|
  {
    var a, b := Of(E, t) * archive.Keys, Of(E, t) * archive'.Keys;
    assert b == a + (b - a);
  }

  lemma StillCopied(inserted: seq<(Table, nat)>, E: Db, archive: Db, archive': Db)
    requires CountsCopied(inserted, E, archive) && archive.Keys <= archive'.Keys
    ensures CountsCopied(inserted, E, archive')
  {
    forall i | 0 <= i < |inserted| ensures inserted[i].1 <= |Of(E, inserted[i].0) * archive'.Keys| {
      MoreIsArchived(E, archive, archive', inserted[i].0);
    }
  }

  /** One more table of pass 1, the ones before it complete. */
  lemma CopyOneMore(inserted: seq<(Table, nat)>, E: Db, archive: Db, archive': Db, n: nat)
    requires CountsCopied(inserted, E, archive) && |inserted| < TABLES && archive.Keys <= archive'.Keys
    requires Complete(inserted, E)
    requires n <= |Of(E, InsertTable(|inserted|)) * archive'.Keys|
    ensures CountsCopied(inserted + [(InsertTable(|inserted|), n)], E, archive')
  {
    OrdersAre(|inserted|);
    forall i | 0 <= i < |inserted| ensures inserted[i].1 <= |Of(E, inserted[i].0) * archive'.Keys| {
      MoreIsArchived(E, archive, archive', inserted[i].0);
    }
  }

  lemma UnionIsSmall<T>(a: set<T>, b: set<T>)
    ensures |a + b| <= |a| + |b|
  {
    assert |a + b| + |a * b| == |a| + |b|;
  }

  lemma UnionSize<K, V>(all: map<K, V>, a: map<K, V>, b: map<K, V>)
    requires all.Keys == a.Keys + b.Keys
    ensures |all| <= |a| + |b|
  {
    UnionIsSmall(a.Keys, b.Keys);
    assert |all.Keys| == |all| && |a.Keys| == |a| && |b.Keys| == |b|;
  }

  lemma CopiesAreFew(archive: Db, rows: Db)
    ensures |ArchiveAfter(archive, rows)| <= |archive| + |rows|
  {
    hide InsertAccepted, Archived;
    UnionSize(InsertIgnore(archive, rows), archive, rows);
  }

  class Region {
    var hot: Db
    var archive: Db
    const batch: nat
    const yearStart: int -> int

    constructor (hot: Db, archive: Db, batch: nat, yearStart: int -> int)
      ensures this.hot == hot && this.archive == archive && this.batch == batch && this.yearStart == yearStart
    {
      this.hot := hot;
      this.archive := archive;
      this.batch := batch;
      this.yearStart := yearStart;
    }

    /** The schema's constraints, plus what the other services guarantee about
        the rows they wrote. */
    ghost predicate Valid()
      reads this
    {
      Protocol.Calendar(Calendar()) && Startable(hot, archive)
    }

    function Calendar(): Protocol.Config {
      Protocol.Config(batch, yearStart)
    }

    /** A third of the time to live after the last renewal, the next commit renews. */
    ghost predicate KeptAlive(lock: Lock.LockKeepAlive, committed: bool, lastRenewAt: int, key: Option<Lock.Lease>, now: int)
      reads lock, lock.redis
    {
      if committed && 3 * (now - lastRenewAt) >= lock.ttl
      then lock.lastRenewAt == now && lock.redis.key == Lock.Renewed(key, lock.token, lock.ttl, now)
      else lock.lastRenewAt == lastRenewAt && lock.redis.key == key
    }

    /** Time passes; after a batch that committed rows the lock is renewed when due. */
    method Breathe(committed: bool, lock: Lock.LockKeepAlive, clock: Clock)
      modifies clock, lock, lock.redis
      ensures clock.now >= old(clock.now)
      ensures hot == old(hot) && archive == old(archive)
      ensures KeptAlive(lock, committed, old(lock.lastRenewAt), old(lock.redis.key), clock.now)
    {
      clock.Elapse();
      if committed { lock.MaybeRenew(clock.now); }
    }

    /** One batch of pass 1: select past the cursor, insert, advance the cursor, renew.
        n counts the rows selected; ok is false when the insert was rejected.
        fits: the run fits into one year, so that its cutoff is the job's. */
    method InsertNextBatch(i: Pass, cutoff: int, cursor: nat, lock: Lock.LockKeepAlive, clock: Clock,
                           ghost fits: bool, ghost job: Job)
      returns (n: nat, last: nat, ok: bool)
      requires batch > 0
      requires fits ==> cutoff == job.y && batch == job.batch && On(job, hot, archive) && InsertReady(job, archive, i, cursor)
      modifies this`archive, clock, lock, lock.redis
      ensures clock.now >= old(clock.now)
      ensures KeptAlive(lock, ok && n > 0, old(lock.lastRenewAt), old(lock.redis.key), clock.now)
      ensures var rows := NextRows(hot, InsertTable(i), cutoff, cursor, batch);
        && n == |rows| && (n > 0 ==> last == LastId(rows))
        && ok == InsertAccepted(old(archive), rows) && archive == ArchiveAfter(old(archive), rows)
      ensures |archive| <= |old(archive)| + n
      ensures fits ==> On(job, hot, archive)
      ensures fits && ok ==> if n < batch then Copied(job.E, archive, i + 1) else InsertReady(job, archive, i, last)
      ensures fits && !ok ==> InsertTable(i) == Transactions && !InSlots(job)
    {
      hide On, InsertReady, Copied, InSlots;
      var rows := NextRows(hot, InsertTable(i), cutoff, cursor, batch);
      var after := ArchiveAfter(archive, rows);
      CopiesAreFew(archive, rows);
      n, ok := |rows|, InsertAccepted(archive, rows);
      last := if n > 0 then LastId(rows) else cursor;
      if fits { InsertTurn(job, hot, archive, i, cursor); }
      archive := after;
      Breathe(ok && n > 0, lock, clock);
    }

    /** Pass 1 for one table. Unless the budget ran out, every row due in the table
        is archived and counted once; a batch is rejected only if a charge is copied
        before its refund. */
    method RunInsertPass(i: Pass, budget: RuntimeBudget, lock: Lock.LockKeepAlive, clock: Clock,
                         ghost fits: bool, ghost job: Job)
      returns (r: Result<nat, Failure>)
      requires batch > 0 && !budget.Exceeded(clock.now)
      requires fits ==> batch == job.batch && OneCutoff(job, yearStart, clock.now, budget.deadline)
      requires fits ==> On(job, hot, archive) && Copied(job.E, archive, i) && job.E == EligibleRows(hot, job.y)
      modifies this`archive, clock, lock, lock.redis
      ensures clock.now >= old(clock.now) && (fits ==> On(job, hot, archive)) && old(archive.Keys) <= archive.Keys
      ensures r.Ok? ==> |archive| <= |old(archive)| + r.value
      ensures fits && r.Ok? ==> r.value <= |Of(job.E, InsertTable(i)) * archive.Keys|
      ensures fits && r.Ok? && !budget.Exceeded(clock.now) ==>
                Copied(job.E, archive, i + 1) && r.value == |Of(job.E, InsertTable(i))|
      ensures fits && r.Err? ==> r.error.table == InsertTable(i) == Transactions && !InSlots(job)
    {
      hide On, InsertReady, Copied, InSlots;
      var cutoff := yearStart(clock.now);
      var cursor: nat := 0;
      var moved: nat := 0;
      ghost var begun, all := clock.now, Remaining(hot, InsertTable(i), cutoff, 0);
      if fits {
        PassStarts(job, archive, i);
        DueOfTable(hot, job.y, InsertTable(i));
      }
      while !budget.Exceeded(clock.now)
        invariant fits ==> On(job, hot, archive) && InsertReady(job, archive, i, cursor)
        invariant clock.now >= begun && old(archive.Keys) <= archive.Keys && |archive| <= |old(archive)| + moved
        invariant moved + Remaining(hot, InsertTable(i), cutoff, cursor) == all
        decreases Remaining(hot, InsertTable(i), cutoff, cursor)
      {
        NextRowsCount(hot, InsertTable(i), cutoff, cursor, batch);
        var n, last, ok := InsertNextBatch(i, cutoff, cursor, lock, clock, fits, job);
        if !ok { return Err(ForeignKeyViolation(InsertTable(i))); }
        moved := moved + n;
        if n < batch {
          if fits { CopiedIsAll(job.E, archive, i); }
          return Ok(moved);
        }
        cursor := last;
      }
      if fits { CountedSoFar(job, hot, archive, i, cursor, moved); }
      return Ok(moved);
    }

    /** One batch of pass 2: select from the top, delete, renew. */
    method DeleteNextBatch(j: Pass, cutoff: int, lock: Lock.LockKeepAlive, clock: Clock, ghost fits: bool, ghost job: Job)
      returns (n: nat, ok: bool)
      requires batch > 0
      requires fits ==> cutoff == job.y && batch == job.batch && On(job, hot, archive) && ReadyToDelete(job.E, hot, archive, j)
      modifies this`hot, clock, lock, lock.redis
      ensures clock.now >= old(clock.now)
      ensures KeptAlive(lock, ok && n > 0, old(lock.lastRenewAt), old(lock.redis.key), clock.now)
      ensures |hot| <= |old(hot)| && (ok ==> |hot| + n <= |old(hot)|)
      ensures fits ==> On(job, hot, archive) && Cleared(job.E, hot, j) && OnlyLost(old(hot), hot, job.E)
      ensures var ks := KeysOf(DeleteTable(j), NextIds(old(hot), DeleteTable(j), cutoff, batch));
        ok == DeleteAccepted(old(hot), ks) && hot == if ok then DeleteRows(old(hot), ks) else old(hot)
      ensures fits ==> LostFrom(old(hot), hot, DeleteTable(j))
      ensures fits && ok ==> |hot| + n == |old(hot)| && (n < batch ==> Cleared(job.E, hot, j + 1))
      ensures fits && !ok ==> hot == old(hot) && DeleteTable(j) == Transactions && !InSlots(job)
    {
      hide On, Cleared, ReadyToDelete, OnlyLost, LostFrom, InSlots;
      var ids := NextIds(hot, DeleteTable(j), cutoff, batch);
      var ks := KeysOf(DeleteTable(j), ids);
      n, ok := |ids|, DeleteAccepted(hot, ks);
      var after := if ok then DeleteRows(hot, ks) else hot;
      DeleteShrinks(hot, DeleteTable(j), cutoff, batch);
      if fits { DeleteStep(job, hot, archive, j, n, ok, after); }
      hot := after;
      Breathe(ok && n > 0, lock, clock);
    }

    /** Pass 2 for one table: what it counts is exactly what left hot, and nothing
        but rows due leaves. */
    method RunDeletePass(j: Pass, budget: RuntimeBudget, lock: Lock.LockKeepAlive, clock: Clock,
                         ghost fits: bool, ghost job: Job)
      returns (r: Result<nat, Failure>)
      requires batch > 0 && !budget.Exceeded(clock.now)
      requires fits ==> batch == job.batch && OneCutoff(job, yearStart, clock.now, budget.deadline)
      requires fits ==> On(job, hot, archive) && ReadyToDelete(job.E, hot, archive, j)
      modifies this`hot, clock, lock, lock.redis
      ensures clock.now >= old(clock.now)
      ensures fits ==> On(job, hot, archive) && Cleared(job.E, hot, j) && OnlyLost(old(hot), hot, job.E)
      ensures fits ==> LostFrom(old(hot), hot, DeleteTable(j))
      ensures fits && r.Ok? ==> r.value + |hot| == |old(hot)|
      ensures fits && r.Ok? && !budget.Exceeded(clock.now) ==> Cleared(job.E, hot, j + 1)
      ensures fits && r.Err? ==> r.error.table == DeleteTable(j) == Transactions && !InSlots(job)
    {
      hide On, Cleared, InSlots;
      var cutoff := yearStart(clock.now);
      var moved: nat := 0;
      ghost var first, begun := hot, clock.now;
      while !budget.Exceeded(clock.now)
        invariant fits ==> On(job, hot, archive) && ReadyToDelete(job.E, hot, archive, j) && OnlyLost(first, hot, job.E)
        invariant clock.now >= begun
        invariant fits ==> moved + |hot| == |first| && LostFrom(first, hot, DeleteTable(j))
        decreases |hot|
      {
        ghost var before := hot;
        var n, ok := DeleteNextBatch(j, cutoff, lock, clock, fits, job);
        if fits {
          OnlyLostAgain(first, before, hot, job.E);
          LostFromAgain(first, before, hot, DeleteTable(j));
        }
        if !ok { return Err(ForeignKeyViolation(DeleteTable(j))); }
        moved := moved + n;
        if n < batch { return Ok(moved); }
      }
      return Ok(moved);
    }

    /** The loop over PASS1_INSERT_ORDER. */
    method InsertAll(budget: RuntimeBudget, lock: Lock.LockKeepAlive, clock: Clock, ghost fits: bool, ghost job: Job)
      returns (inserted: seq<(Table, nat)>, failure: Option<Failure>)
      requires batch > 0
      requires fits ==> batch == job.batch && OneCutoff(job, yearStart, clock.now, budget.deadline)
      requires fits ==> On(job, hot, archive) && job.E == EligibleRows(hot, job.y)
      modifies this`archive, clock, lock, lock.redis
      ensures clock.now >= old(clock.now) && (fits ==> On(job, hot, archive))
      ensures Names(inserted, PASS1) && (fits ==> CountsCopied(inserted, job.E, archive))
      ensures failure.None? ==> |archive| <= |old(archive)| + Total(inserted)
      ensures fits && failure.None? && !budget.Exceeded(clock.now) ==>
                Copied(job.E, archive, TABLES) && CountsAll(inserted, job.E)
      ensures fits && failure.Some? ==> failure.value.table == Transactions && !InSlots(job)
    {
      hide On, InSlots;
      inserted, failure := [], None;
      ghost var begun := clock.now;
      for i := 0 to TABLES
        invariant clock.now >= begun && failure.None? && |inserted| == i && Names(inserted, PASS1)
        invariant fits ==> On(job, hot, archive) && CountsCopied(inserted, job.E, archive)
        invariant |archive| <= |old(archive)| + Total(inserted)
        invariant fits ==> budget.Exceeded(clock.now) || (Copied(job.E, archive, i) && Complete(inserted, job.E))
      {
        if budget.Exceeded(clock.now) { break; }
        ghost var before := archive;
        OrdersAre(i);
        var r := RunInsertPass(i, budget, lock, clock, fits, job);
        if r.Err? {
          if fits { StillCopied(inserted, job.E, before, archive); }
          return inserted, Some(r.error);
        }
        if fits { CopyOneMore(inserted, job.E, before, archive, r.value); }
        inserted := inserted + [(InsertTable(i), r.value)];
      }
    }

    /** The loop over PASS2_DELETE_ORDER. */
    method DeleteAll(budget: RuntimeBudget, lock: Lock.LockKeepAlive, clock: Clock, ghost fits: bool, ghost job: Job)
      returns (deleted: seq<(Table, nat)>, failure: Option<Failure>)
      requires batch > 0
      requires fits ==> batch == job.batch && OneCutoff(job, yearStart, clock.now, budget.deadline)
      requires fits ==> On(job, hot, archive) && (budget.Exceeded(clock.now) || Copied(job.E, archive, TABLES))
      modifies this`hot, clock, lock, lock.redis
      ensures clock.now >= old(clock.now)
      ensures fits ==> On(job, hot, archive) && OnlyLost(old(hot), hot, job.E)
      ensures Names(deleted, PASS2) && (budget.Exceeded(old(clock.now)) ==> deleted == [])
      ensures fits && failure.None? ==> Total(deleted) + |hot| == |old(hot)| && CountsGone(deleted, old(hot), hot)
      ensures failure.None? && !budget.Exceeded(clock.now) ==> |deleted| == TABLES
      ensures fits && failure.None? && !budget.Exceeded(clock.now) ==> ReadyToDelete(job.E, hot, archive, TABLES)
      ensures fits && failure.Some? ==> failure.value.table == Transactions && !InSlots(job)
    {
      hide On, Copied, InSlots;
      deleted, failure := [], None;
      ghost var first, begun := hot, clock.now;
      for j := 0 to TABLES
        invariant clock.now >= begun && failure.None? && |deleted| == j && Names(deleted, PASS2)
        invariant budget.Exceeded(begun) ==> deleted == []
        invariant fits ==> On(job, hot, archive) && (budget.Exceeded(clock.now) || ReadyToDelete(job.E, hot, archive, j))
        invariant fits ==> OnlyLost(first, hot, job.E) && Total(deleted) + |hot| == |first| && CountsGone(deleted, first, hot)
      {
        if budget.Exceeded(clock.now) { break; }
        ghost var before := hot;
        OrdersAre(j);
        var r := RunDeletePass(j, budget, lock, clock, fits, job);
        if fits { OnlyLostAgain(first, before, hot, job.E); }
        if r.Err? { return deleted, Some(r.error); }
        if fits { CountOneMore(deleted, first, before, hot, r.value); }
        deleted := deleted + [(DeleteTable(j), r.value)];
      }
    }

    /** What a run is to move, when it starts now. */
    ghost function JobAt(now: int): Job
      reads this
    {
      Job(batch, yearStart(now), EligibleRows(hot, yearStart(now)), archive)
    }

    /** The lease is five minutes longer than the run may take. */
    method TakeLock(token: Lock.Token, maxRuntimeMin: nat, redis: Lock.RedisLock, now: int)
      returns (keepAlive: Option<Lock.LockKeepAlive>)
      modifies redis
      ensures keepAlive.None? <==> Lock.Holder(old(redis.key), now).Some?
      ensures keepAlive.None? ==> redis.key == old(redis.key)
      ensures keepAlive.Some? ==>
                && redis.key == Some(Lock.Lease(token, now + (maxRuntimeMin + 5) * 60_000)) && fresh(keepAlive.value)
                && keepAlive.value.redis == redis && keepAlive.value.token == token
                && keepAlive.value.ttl == (maxRuntimeMin + 5) * 60_000 && keepAlive.value.lastRenewAt == now
    {
      var ttlSec := (maxRuntimeMin + 5) * 60;
      var acquired := redis.Acquire(token, ttlSec * 1000, now);
      if !acquired { return None; }
      var lock := new Lock.LockKeepAlive(redis, token, ttlSec * 1000, now);
      keepAlive := Some(lock);
    }

    /** One archival run; the clock reads milliseconds. The lock is given back, and
        without it nothing happens. If the budget fits into the year: every row stays or
        is archived as its copy whatever happens, the answer counts table by table what
        was copied and what left hot, a batch is rejected only if refunds are not in
        their slots, and a run that ends in time has moved every row due, which then
        were. */
    method RunArchivalOnce(token: Lock.Token, maxRuntimeMin: nat, redis: Lock.RedisLock, clock: Clock)
      returns (r: Result<Summary, Failure>)
      requires Valid()
      modifies this`hot, this`archive, clock, redis
      ensures Lock.Holder(old(redis.key), old(clock.now)).Some? ==>
                hot == old(hot) && archive == old(archive) && redis.key == old(redis.key) && r == Ok(Summary(0, [], []))
      ensures Lock.Holder(old(redis.key), old(clock.now)).None? ==> Lock.Holder(redis.key, clock.now) != Some(token)
      ensures Protocol.InOneYear(Calendar(), old(clock.now), old(clock.now) + maxRuntimeMin * 60_000) ==>
                && Valid() && NothingGone(old(hot), hot, archive)
                && Outcome(r, old(JobAt(clock.now)), old(hot), hot, archive,
                           Lock.Holder(old(redis.key), old(clock.now)).None? && clock.now < old(clock.now) + maxRuntimeMin * 60_000)
    {
      hide On, Startable, InSlots, CountsGone, CountsCopied, CountsAll;
      ghost var job, before := JobAt(clock.now), hot;
      NothingToldYet(job.E, hot, archive);
      var keepAlive := TakeLock(token, maxRuntimeMin, redis, clock.now);
      if keepAlive.None? { return Ok(Summary(0, [], [])); }

      var budget := new RuntimeBudget(clock.now, maxRuntimeMin * 60_000);
      ghost var fits := Protocol.InOneYear(Calendar(), clock.now, budget.deadline);
      if fits {
        StartOk(job, hot);
        FitsMeansOneCutoff(Calendar(), job, clock.now, budget.deadline);
      }
      var inserted, failure := InsertAll(budget, keepAlive.value, clock, fits, job);
      var deleted: seq<(Table, nat)> := [];
      if failure.None? {
        deleted, failure := DeleteAll(budget, keepAlive.value, clock, fits, job);
      }
      var _ := redis.Release(token, clock.now);
      if fits {
        EndOk(job, before, hot, archive);
        if failure.None? && !budget.Exceeded(clock.now) { DoneOk(job, before, hot, archive); }
      }
      if failure.Some? { return Err(failure.value); }
      return Ok(Summary(Total(deleted), inserted, deleted));
    }
  }

  /** inTime: the run had the lock and its budget was not used up. */
  ghost predicate Outcome(r: Result<Summary, Failure>, job: Job, before: Db, after: Db, archive: Db, inTime: bool)
    requires r.Err? || inTime ==> job.batch > 0
  {
    match r
    case Err(e) => e.table == Transactions && !InSlots(job)
    case Ok(answer) =>
      && Tells(answer, job.E, before, after, archive, inTime)
      && |archive| <= |job.A| + Total(answer.inserted)
      && (job.E == map[] ==> answer.totalMoved == 0)
      && (inTime ==> after == before - job.E.Keys && archive == job.A + CopyOf(job.E) && InSlots(job))
  }

  lemma NothingToldYet(E: Db, hot: Db, archive: Db)
    ensures Tells(Summary(0, [], []), E, hot, hot, archive, false)
  {
  }

  lemma FitsMeansOneCutoff(c: Protocol.Config, job: Job, now: int, deadline: int)
    requires Protocol.Calendar(c) && Protocol.InOneYear(c, now, deadline) && job.y == c.yearStart(now)
    ensures OneCutoff(job, c.yearStart, now, deadline)
  {
    forall t | now <= t < deadline ensures c.yearStart(t) == job.y {
      assert c.yearStart(now) <= c.yearStart(t) <= c.yearStart(deadline - 1);
    }
  }
}
