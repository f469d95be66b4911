/** The seven FK-linked tables that cold archival moves, and the SQL statements
    the worker issues against them (src/lib/jobs/archival.worker.ts). */
module ArchivalTables {
  import opened Prelude

  /** BIGSERIAL columns start at 1. */
  type Id = i: int | 1 <= i witness 1

  datatype Table =
    Orders | OrderItems | Transactions | PaymentSessions
    | WebhookEvents | Deliveries | AgentEarnings

  datatype Key = Key(table: Table, id: Id)

  /** stamp:    created_at (orders) or received_at (payment_webhook_events)
      order:    order_id
      self:     deliveries.reassigned_from or transactions.refunded_payment_id
      delivery: agent_earnings.delivery_id
      times:    the other TIMESTAMP columns, in microseconds like stamp, or NULL
      payload:  every other column */
  datatype Row = Row(stamp: int, order: Option<Id>, self: Option<Id>, delivery: Option<Id>,
                     times: seq<Option<int>>, payload: string)

  type Db = map<Key, Row>

  /** A non-empty batch of rows. */
  type Batch = rows: Db | |rows| > 0
    witness map[Key(Orders, 1) := Row(0, None, None, None, [], "")]

  const TABLES: nat := 7
  type Pass = i: nat | i < TABLES

  /** Position in PASS1_INSERT_ORDER (parents before children). */
  function InsertIndex(t: Table): (i: Pass)
    ensures InsertTable(i) == t
  {
    match t
    case Orders => 0
    case OrderItems => 1
    case Transactions => 2
    case PaymentSessions => 3
    case WebhookEvents => 4
    case Deliveries => 5
    case AgentEarnings => 6
  }

  function InsertTable(i: Pass): Table {
    match i
    case 0 => Orders
    case 1 => OrderItems
    case 2 => Transactions
    case 3 => PaymentSessions
    case 4 => WebhookEvents
    case 5 => Deliveries
    case _ => AgentEarnings
  }

  /** Position in PASS2_DELETE_ORDER (children before parents). */
  function DeleteIndex(t: Table): (j: Pass)
    ensures DeleteTable(j) == t
    ensures j == TABLES - 1 - InsertIndex(t)
  {
    match t
    case AgentEarnings => 0
    case Deliveries => 1
    case WebhookEvents => 2
    case PaymentSessions => 3
    case Transactions => 4
    case OrderItems => 5
    case Orders => 6
  }

  function DeleteTable(j: Pass): Table {
    match j
    case 0 => AgentEarnings
    case 1 => Deliveries
    case 2 => WebhookEvents
    case 3 => PaymentSessions
    case 4 => Transactions
    case 5 => OrderItems
    case _ => Orders
  }

  function Column(t: Table, c: Option<Id>): set<Key> {
    if c.Some? then {Key(t, c.value)} else {}
  }

  /** The rows a row's foreign keys point at (src/migrations). */
  function Refs(k: Key, r: Row): set<Key> {
    match k.table
    case Orders => {}
    case WebhookEvents => {}
    case OrderItems => Column(Orders, r.order)
    case PaymentSessions => Column(Orders, r.order)
    case Transactions => Column(Orders, r.order) + Column(Transactions, r.self)
    case Deliveries => Column(Orders, r.order) + Column(Deliveries, r.self)
    case AgentEarnings => Column(Orders, r.order) + Column(Deliveries, r.delivery)
  }

  ghost predicate ForeignKeysHold(db: Db) {
    forall k :: k in db ==> Refs(k, db[k]) <= db.Keys
  }

  ghost predicate NamesOnly(db: Db, t: Table, c: Option<Id>) {
    c.Some? ==> Key(t, c.value) in db
  }

  /** The foreign keys of the seven tables: five name an order, refunds and
      reassigned deliveries name a row of their own table, and earnings a delivery. */
  lemma ForeignKeysAre(db: Db)
    ensures ForeignKeysHold(db) <==> forall k :: k in db ==>
      && (!k.table.Orders? && !k.table.WebhookEvents? ==> NamesOnly(db, Orders, db[k].order))
      && (k.table.Transactions? || k.table.Deliveries? ==> NamesOnly(db, k.table, db[k].self))
      && (k.table.AgentEarnings? ==> NamesOnly(db, Deliveries, db[k].delivery))
  {
    forall k | k in db
      ensures Refs(k, db[k]) <= db.Keys <==>
        && (!k.table.Orders? && !k.table.WebhookEvents? ==> NamesOnly(db, Orders, db[k].order))
        && (k.table.Transactions? || k.table.Deliveries? ==> NamesOnly(db, k.table, db[k].self))
        && (k.table.AgentEarnings? ==> NamesOnly(db, Deliveries, db[k].delivery))
    {
      var r := db[k];
      if r.order.Some? { assert Column(Orders, r.order) == {Key(Orders, r.order.value)}; }
      if r.self.Some? { assert Column(k.table, r.self) == {Key(k.table, r.self.value)}; }
      if r.delivery.Some? { assert Column(Deliveries, r.delivery) == {Key(Deliveries, r.delivery.value)}; }
    }
  }

  /** A refund, a reassignment and an earning carry the order of the row they
      point at (payment.service.ts:170, delivery.service.ts:160, :334). */
  ghost predicate SameFamily(db: Db) {
    forall k, t :: k in db && t in Refs(k, db[k]) && t in db && t.table != Orders
      ==> db[t].order == db[k].order
  }

  /** TABLE_ELIGIBILITY: orders and webhook events by their own timestamp,
      everything else by the order it belongs to. */
  predicate Eligible(db: Db, k: Key, cutoff: int)
    requires k in db
  {
    match k.table
    case Orders => db[k].stamp < cutoff
    case WebhookEvents => db[k].stamp < cutoff
    case _ =>
      var parent := db[k].order;
      parent.Some? && Key(Orders, parent.value) in db && db[Key(Orders, parent.value)].stamp < cutoff
  }

  function EligibleIds(db: Db, t: Table, cutoff: int): set<nat> {
    set k | k in db && k.table == t && Eligible(db, k, cutoff) :: k.id
  }

  lemma EligibleIdsAre(db: Db, t: Table, cutoff: int)
    ensures forall i :: i in EligibleIds(db, t, cutoff) <==> i >= 1 && Key(t, i) in db && Eligible(db, Key(t, i), cutoff)
  {
  }

  /** How many eligible rows of the table lie past the cursor. */
  function Remaining(db: Db, t: Table, cutoff: int, cursor: nat): nat {
    |Beyond(EligibleIds(db, t, cutoff), cursor)|
  }

  function EligibleRows(db: Db, cutoff: int): Db {
    map k | k in db && Eligible(db, k, cutoff) :: db[k]
  }

  function IdsOf(rows: Db): (ids: set<nat>)
    ensures forall k :: k in rows ==> k.id in ids
    ensures |rows| > 0 ==> ids != {}
  {
    var ids := set k | k in rows :: k.id as nat;
    assert forall k :: k in rows ==> k.id in ids;
    assert |rows| > 0 ==> exists k :: k in rows;
    ids
  }

  /** rows[rows.length - 1].id of a batch in ascending order. */
  function LastId(rows: Batch): (last: nat)
    ensures exists k :: k in rows && k.id == last
    ensures forall k :: k in rows ==> k.id <= last
  {
    Greatest(IdsOf(rows))
  }

  function Beyond(ids: set<nat>, cursor: nat): set<nat> {
    set i | i in ids && i > cursor
  }

  /** SELECT * ... WHERE eligible AND id > cursor ORDER BY id ASC LIMIT size. */
  function NextRows(hot: Db, t: Table, cutoff: int, cursor: nat, size: nat): (rows: Db)
  {
    var ids := Smallest(Beyond(EligibleIds(hot, t, cutoff), cursor), size);
    map k | k in hot && k.table == t && k.id in ids :: hot[k]
  }

  /** SELECT id ... WHERE eligible ORDER BY id DESC LIMIT size. */
  function NextIds(hot: Db, t: Table, cutoff: int, size: nat): (ids: set<nat>)
  {
    Largest(EligibleIds(hot, t, cutoff), size)
  }

  function KeysOf(t: Table, ids: set<nat>): (ks: set<Key>)
    ensures forall k :: k in ks <==> k.table == t && k.id in ids
  {
    set i: Id | i in ids :: Key(t, i)
  }

  function CutToMs(t: Option<int>): Option<int> {
    if t.Some? then Some(Ms(t.value) * 1000) else None
  }

  /** A selected row is a JavaScript object, in which every timestamp is a Date
      (src/lib/knex/knex.ts:12); this is what an insert of that object writes. */
  function Archived(r: Row): Row {
    r.(stamp := Ms(r.stamp) * 1000, times := seq(|r.times|, i requires 0 <= i < |r.times| => CutToMs(r.times[i])))
  }

  function CopyOf(rows: Db): Db {
    map k | k in rows :: Archived(rows[k])
  }

  /** INSERT ... ON CONFLICT (id) DO NOTHING: rows already there win. */
  function InsertIgnore(db: Db, rows: Db): Db {
    CopyOf(rows) + db
  }

  /** Foreign keys are checked at the end of the statement, for the rows it
      actually inserted. */
  predicate InsertAccepted(db: Db, rows: Db) {
    forall k :: k in rows && k !in db ==> Refs(k, rows[k]) <= rows.Keys + db.Keys
  }

  /** order_items.order_id is ON DELETE CASCADE. */
  function Cascade(db: Db, ks: set<Key>): set<Key> {
    set k | k in db && k.table == OrderItems && db[k].order.Some?
         && Key(Orders, db[k].order.value) in ks
  }

  function DeleteRows(db: Db, ks: set<Key>): Db {
    db - (ks + Cascade(db, ks))
  }

  /** No surviving row may point at a deleted one. */
  predicate DeleteAccepted(db: Db, ks: set<Key>) {
    forall k :: k in DeleteRows(db, ks) ==> Refs(k, db[k]) !! ks + Cascade(db, ks)
  }

  // ---- facts about eligibility ------------------------------------------

  /** Eligibility is closed under following foreign keys in both directions, so
      a whole order family moves together. */
  lemma FamiliesMoveTogether(db: Db, cutoff: int, k: Key, t: Key)
    requires ForeignKeysHold(db) && SameFamily(db)
    requires k in db && t in Refs(k, db[k])
    ensures t in db && (Eligible(db, k, cutoff) <==> Eligible(db, t, cutoff))
  {
    assert t in db;
    if t.table == Orders {
      assert db[k].order == Some(t.id);
      assert t == Key(Orders, t.id);
    } else {
      assert db[t].order == db[k].order;
    }
  }

  lemma ParentsComeFirst(k: Key, r: Row, t: Key)
    requires t in Refs(k, r)
    ensures InsertIndex(t.table) <= InsertIndex(k.table)
    ensures t.table == k.table ==> t.table == Transactions || t.table == Deliveries
    ensures t.table == k.table ==> r.self == Some(t.id)
  {
  }

  lemma ForeignKeysAfterInsert(db: Db, rows: Db)
    requires ForeignKeysHold(db) && InsertAccepted(db, rows)
    ensures ForeignKeysHold(InsertIgnore(db, rows))
  {
  }

  lemma ForeignKeysAfterDelete(db: Db, ks: set<Key>)
    requires ForeignKeysHold(db) && DeleteAccepted(db, ks)
    ensures ForeignKeysHold(DeleteRows(db, ks))
  {
  }

  /** A batch is let in exactly when the foreign keys hold of the archive with it:
      rows already there stay as they are, the others become copies. */
  lemma InsertAcceptedIff(db: Db, rows: Db)
    requires ForeignKeysHold(db)
    ensures InsertAccepted(db, rows) <==> ForeignKeysHold(InsertIgnore(db, rows))
    ensures InsertIgnore(db, rows).Keys == db.Keys + rows.Keys
    ensures forall k :: k in db ==> InsertIgnore(db, rows)[k] == db[k]
    ensures forall k :: k in rows && k !in db ==> InsertIgnore(db, rows)[k] == Archived(rows[k])
  {
    if ForeignKeysHold(InsertIgnore(db, rows)) {
      forall k | k in rows && k !in db ensures Refs(k, rows[k]) <= rows.Keys + db.Keys {
        assert k in InsertIgnore(db, rows);
      }
    }
  }

  /** A delete takes the named rows and the items of the orders among them, and goes
      through exactly when the foreign keys hold of the rest. */
  lemma DeleteAcceptedIff(db: Db, ks: set<Key>)
    requires ForeignKeysHold(db)
    ensures DeleteAccepted(db, ks) <==> ForeignKeysHold(DeleteRows(db, ks))
    ensures forall k :: k in DeleteRows(db, ks) <==>
      k in db && k !in ks && !(k.table.OrderItems? && db[k].order.Some? && Key(Orders, db[k].order.value) in ks)
    ensures forall k :: k in DeleteRows(db, ks) ==> DeleteRows(db, ks)[k] == db[k]
  {
    var rest := DeleteRows(db, ks);
    if ForeignKeysHold(rest) {
      forall k | k in rest ensures Refs(k, db[k]) !! ks + Cascade(db, ks) { assert Refs(k, rest[k]) <= rest.Keys; }
    }
    forall k | k in rest && DeleteAccepted(db, ks) ensures Refs(k, rest[k]) <= rest.Keys {
      assert Refs(k, db[k]) <= db.Keys;
    }
  }

  lemma MapSize(rows: Db, t: Table)
    requires forall k :: k in rows ==> k.table == t
    ensures |rows| == |IdsOf(rows)|
  {
    if k :| k in rows {
      var rest := rows - {k};
      assert IdsOf(rest) == IdsOf(rows) - {k.id} by {
        forall i | i in IdsOf(rows) && i != k.id ensures i in IdsOf(rest) {
          var k' :| k' in rows && k'.id == i;
          assert k' in rest;
        }
      }
      MapSize(rest, t);
      assert rows.Keys == rest.Keys + {k};
      assert |rows.Keys| == |rest.Keys| + 1;
    } else {
      assert rows == map[];
    }
  }

  predicate EligibleIn(db: Db, t: Table, cutoff: int, k: Key) {
    k in db && k.table == t && Eligible(db, k, cutoff)
  }

  /** The ids an insert batch is chosen from are the eligible ones past the cursor. */
  lemma PoolIs(hot: Db, t: Table, cutoff: int, cursor: nat, e: Key)
    ensures EligibleIn(hot, t, cutoff, e) && e.id > cursor
       <==> e.table == t && e.id in Beyond(EligibleIds(hot, t, cutoff), cursor)
  {
    EligibleIdsAre(hot, t, cutoff);
    if e.table == t { assert e == Key(t, e.id); }
  }

  /** An insert batch holds eligible rows past the cursor, skips none of them up
      to its last id, and leaves none at all when it is shorter than the limit. */
  lemma NextRowsAreFirst(hot: Db, t: Table, cutoff: int, cursor: nat, size: nat)
    ensures var rows := NextRows(hot, t, cutoff, cursor, size);
      && (forall k :: k in rows ==> EligibleIn(hot, t, cutoff, k) && rows[k] == hot[k] && k.id > cursor)
      && (forall k, e | k in rows && EligibleIn(hot, t, cutoff, e) && cursor < e.id <= k.id :: e in rows)
      && |rows| <= size
      && (|rows| < size ==> forall e | EligibleIn(hot, t, cutoff, e) && e.id > cursor :: e in rows)
  {
    var pool := Beyond(EligibleIds(hot, t, cutoff), cursor);
    SmallestAreFirst(pool, size);
    NextRowsIds(hot, t, cutoff, cursor, size);
    forall e ensures EligibleIn(hot, t, cutoff, e) && e.id > cursor <==> e.table == t && e.id in pool {
      PoolIs(hot, t, cutoff, cursor, e);
    }
    if |NextRows(hot, t, cutoff, cursor, size)| < size { FullSelection(Smallest(pool, size), pool); }
  }

  /** A delete batch holds the eligible rows of highest id, all of them when it
      is shorter than the limit. */
  lemma NextIdsAreLast(hot: Db, t: Table, cutoff: int, size: nat)
    ensures var ids := NextIds(hot, t, cutoff, size);
      && (forall i :: i in ids ==> i >= 1 && EligibleIn(hot, t, cutoff, Key(t, i)))
      && (forall i, e | i in ids && EligibleIn(hot, t, cutoff, e) && e.id >= i :: e.id in ids)
      && |ids| <= size
      && (|ids| < size ==> forall e | EligibleIn(hot, t, cutoff, e) :: e.id in ids)
  {
    EligibleIdsAre(hot, t, cutoff);
    var pool := EligibleIds(hot, t, cutoff);
    LargestAreLast(EligibleIds(hot, t, cutoff), size);
    var ids := NextIds(hot, t, cutoff, size);
    assert forall e | EligibleIn(hot, t, cutoff, e) :: e == Key(t, e.id) && e.id in pool;
    if |ids| < size { FullSelection(ids, pool); }
  }

  lemma NextRowsIds(hot: Db, t: Table, cutoff: int, cursor: nat, size: nat)
    ensures var rows := NextRows(hot, t, cutoff, cursor, size);
            var ids := Smallest(Beyond(EligibleIds(hot, t, cutoff), cursor), size);
            && (forall k :: k in rows <==> k.table == t && k.id in ids)
            && IdsOf(rows) == ids && |rows| == |ids|
  {
    EligibleIdsAre(hot, t, cutoff);
    SmallestAreFirst(Beyond(EligibleIds(hot, t, cutoff), cursor), size);
    var ids := Smallest(Beyond(EligibleIds(hot, t, cutoff), cursor), size);
    var rows := NextRows(hot, t, cutoff, cursor, size);
    forall k ensures k in rows <==> k.table == t && k.id in ids {
      if k.table == t && k.id in ids { assert k == Key(t, k.id); }
    }
    forall i | i in ids ensures i in IdsOf(rows) { assert Key(t, i) in rows; }
    MapSize(rows, t);
  }

  /** How many eligible rows an insert batch takes off what lies past the cursor. */
  lemma NextRowsCount(hot: Db, t: Table, cutoff: int, cursor: nat, size: nat)
    ensures var rows := NextRows(hot, t, cutoff, cursor, size);
      && (|rows| < size ==> |rows| == Remaining(hot, t, cutoff, cursor))
      && (|rows| > 0 ==> |rows| + Remaining(hot, t, cutoff, LastId(rows)) == Remaining(hot, t, cutoff, cursor))
  {
    var all := EligibleIds(hot, t, cutoff);
    var pool := Beyond(all, cursor);
    var rows := NextRows(hot, t, cutoff, cursor, size);
    SmallestAreFirst(Beyond(EligibleIds(hot, t, cutoff), cursor), size);
    NextRowsIds(hot, t, cutoff, cursor, size);
    if |rows| > 0 { SplitAt(pool, Smallest(pool, size), LastId(rows), all, cursor); }
  }

  lemma SplitAt(pool: set<nat>, ids: set<nat>, last: nat, all: set<nat>, cursor: nat)
    requires pool == Beyond(all, cursor) && ids <= pool && last in ids
    requires forall i :: i in ids ==> i <= last
    requires forall a, b :: a in ids && b in pool && b !in ids ==> a < b
    ensures |ids| + |Beyond(all, last)| == |pool|
  {
    assert pool == ids + Beyond(all, last);
    assert ids !! Beyond(all, last);
  }

  /** A delete batch removes as many rows as it selected. */
  lemma NextIdsCount(hot: Db, t: Table, cutoff: int, size: nat)
    ensures var ids := NextIds(hot, t, cutoff, size);
      KeysOf(t, ids) <= hot.Keys && |hot - KeysOf(t, ids)| + |ids| == |hot|
  {
    LargestAreLast(EligibleIds(hot, t, cutoff), size);
    var ids := NextIds(hot, t, cutoff, size);
    NextIdsAreLast(hot, t, cutoff, size);
    var ks := KeysOf(t, ids);
    forall k | k in ks ensures k in hot { assert k == Key(t, k.id); }
    KeysOfSize(t, ids);
    assert (hot - ks).Keys == hot.Keys - ks;
    assert hot.Keys == (hot.Keys - ks) + ks;
  }

  lemma KeysOfSize(t: Table, ids: set<nat>)
    requires forall i :: i in ids ==> i >= 1
    ensures |KeysOf(t, ids)| == |ids|
  {
    if i :| i in ids {
      var rest := ids - {i};
      KeysOfSize(t, rest);
      assert KeysOf(t, ids) == KeysOf(t, rest) + {Key(t, i)};
    } else {
      assert ids == {};
      assert KeysOf(t, ids) == {};
    }
  }
}
