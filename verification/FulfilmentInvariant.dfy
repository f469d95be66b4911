/** What every call keeps true of orders, deliveries and payments together. */
module FulfilmentInvariant {
  import opened Prelude
  import opened Sorting
  import opened Presence
  import opened FulfilmentModel

  // ---- the invariant ---------------------------------------------------------

  /** Two deliveries of one order: neither replaces what the other replaces, and at
      most one of them is not superseded. */
  ghost predicate Apart(ds: map<nat, Delivery>, d: nat, e: nat)
    requires d in ds && e in ds
  {
    ds[d].order == ds[e].order ==>
      ds[d].from != ds[e].from && (Superseded(ds[d].status) || Superseded(ds[e].status))
  }

  ghost predicate LinkOk(ds: map<nat, Delivery>, d: nat)
    requires d in ds
  {
    ds[d].from.Some? ==>
      var f := ds[d].from.value;
      f < d && f in ds && ds[f].order == ds[d].order && Superseded(ds[f].status)
  }

  ghost predicate ChainsOk(ds: map<nat, Delivery>) {
    && (forall d :: d in ds ==> LinkOk(ds, d))
    && (forall d, e {:trigger Apart(ds, d, e)} :: d in ds && e in ds && d != e ==> Apart(ds, d, e))
  }

  /** How many deliveries an order can have: the first one is never refused. */
  function Limit(max: int): nat {
    if max >= 1 then max else 1
  }

  ghost predicate LengthsOk(max: int, ds: map<nat, Delivery>) {
    forall d :: d in ds ==> ChainLength(ds, d) <= Limit(max)
  }

  /** An order with an active delivery is PICKED exactly when the delivery is, and
      ASSIGNED otherwise. */
  predicate Fits(order: OrderStatus, delivery: DeliveryStatus) {
    && (Active(delivery) ==> if delivery.Picked? then order.Picked? else order.Assigned?)
    && (delivery.Delivered? ==> order.Delivered?)
    && (order.Assigned? || order.Picked? || order.Delivered? || order.Cancelled?)
  }

  ghost predicate CoupledOk(orders: map<nat, Order>, ds: map<nat, Delivery>) {
    forall d :: d in ds ==> ds[d].order in orders && Fits(orders[ds[d].order].status, ds[d].status)
  }

  ghost predicate NoDelivery(ds: map<nat, Delivery>, o: nat) {
    forall d :: d in ds ==> ds[d].order != o
  }

  ghost predicate SessionOk(s: State, k: nat)
    requires k in s.sessions
  {
    Open(s.sessions[k].status) ==>
      var o := s.sessions[k].order;
      && o in s.orders && NoDelivery(s.deliveries, o)
      && s.orders[o].online && s.orders[o].placed == 0 && s.orders[o].total == s.sessions[k].amount
      && (s.orders[o].status.PendingPayment? || s.orders[o].status.Cancelled?)
  }

  ghost predicate OneOpen(sessions: map<nat, Session>, j: nat, k: nat)
    requires j in sessions && k in sessions
  {
    Open(sessions[j].status) && Open(sessions[k].status) ==> sessions[j].order != sessions[k].order
  }

  ghost predicate SessionsOk(s: State) {
    && (forall k :: k in s.sessions ==> SessionOk(s, k))
    && (forall j, k {:trigger OneOpen(s.sessions, j, k)} ::
          j in s.sessions && k in s.sessions && j != k ==> OneOpen(s.sessions, j, k))
  }

  ghost predicate ChargeOk(orders: map<nat, Order>, c: Charge) {
    c.succeeded ==>
      && c.order in orders && orders[c.order].online
      && orders[c.order].total == c.amount && orders[c.order].placed == 1
  }

  ghost predicate OneSuccess(charges: map<string, Charge>, t: string, u: string)
    requires t in charges && u in charges
  {
    charges[t].succeeded && charges[u].succeeded ==> charges[t].order != charges[u].order
  }

  ghost predicate ChargesOk(orders: map<nat, Order>, charges: map<string, Charge>) {
    && (forall t :: t in charges ==> ChargeOk(orders, charges[t]))
    && (forall t, u {:trigger OneSuccess(charges, t, u)} ::
          t in charges && u in charges && t != u ==> OneSuccess(charges, t, u))
  }

  ghost predicate Paid(charges: map<string, Charge>, o: nat) {
    exists t :: t in charges && charges[t].order == o && charges[t].succeeded
  }

  /** order.placed goes out once: at placement for cash, with the capture for an
      online order, which cannot get past PENDING_PAYMENT without it. */
  ghost predicate OrderOk(charges: map<string, Charge>, o: nat, order: Order) {
    && order.placed == (if !order.online || Paid(charges, o) then 1 else 0)
    && (order.status.PendingPayment? ==> order.placed == 0)
    && (order.placed == 0 ==> order.status.PendingPayment? || order.status.Cancelled?)
  }

  ghost predicate OrdersOk(s: State) {
    forall o :: o in s.orders ==> OrderOk(s.charges, o, s.orders[o])
  }

  ghost predicate HasCaptured(sessions: map<nat, Session>, o: nat) {
    exists k :: k in sessions && sessions[k].order == o && sessions[k].status.Captured?
  }

  ghost predicate OneCaptured(sessions: map<nat, Session>, j: nat, k: nat)
    requires j in sessions && k in sessions
  {
    sessions[j].status.Captured? && sessions[k].status.Captured? ==> sessions[j].order != sessions[k].order
  }

  /** A session is CAPTURED for every succeeded charge and for nothing else, one for
      each order. */
  ghost predicate CapturesOk(sessions: map<nat, Session>, charges: map<string, Charge>) {
    && (forall k :: k in sessions && sessions[k].status.Captured? ==> Paid(charges, sessions[k].order))
    && (forall t :: t in charges && charges[t].succeeded ==> HasCaptured(sessions, charges[t].order))
    && (forall j, k {:trigger OneCaptured(sessions, j, k)} ::
          j in sessions && k in sessions && j != k ==> OneCaptured(sessions, j, k))
  }

  ghost predicate Inv(max: int, s: State) {
    && ChainsOk(s.deliveries) && LengthsOk(max, s.deliveries)
    && CoupledOk(s.orders, s.deliveries)
    && SessionsOk(s) && ChargesOk(s.orders, s.charges) && OrdersOk(s)
    && CapturesOk(s.sessions, s.charges)
  }

  // ---- delivery rows --------------------------------------------------------------

  /** Only statuses change, and a superseded delivery stays superseded. */
  ghost predicate Evolves(ds: map<nat, Delivery>, ds': map<nat, Delivery>) {
    && ds'.Keys == ds.Keys
    && forall d :: d in ds ==>
         && ds'[d].order == ds[d].order && ds'[d].agent == ds[d].agent && ds'[d].from == ds[d].from
         && (Superseded(ds[d].status) ==> Superseded(ds'[d].status))
  }

  lemma {:induction false} SameLinks(ds: map<nat, Delivery>, ds': map<nat, Delivery>, d: nat)
    requires forall k :: k <= d ==> (k in ds <==> k in ds')
    requires forall k :: k <= d && k in ds ==> ds'[k].from == ds[k].from
    ensures ChainLength(ds', d) == ChainLength(ds, d)
  {
    if d in ds && ds[d].from.Some? && ds[d].from.value < d { SameLinks(ds, ds', ds[d].from.value); }
  }

  lemma EvolvingKeepsChains(max: int, ds: map<nat, Delivery>, ds': map<nat, Delivery>)
    requires ChainsOk(ds) && LengthsOk(max, ds) && Evolves(ds, ds')
    ensures ChainsOk(ds') && LengthsOk(max, ds')
  {
    forall d | d in ds' ensures LinkOk(ds', d) && ChainLength(ds', d) <= Limit(max) {
      assert LinkOk(ds, d);
      SameLinks(ds, ds', d);
    }
    forall d, e | d in ds' && e in ds' && d != e ensures Apart(ds', d, e) { assert Apart(ds, d, e); }
  }

  /** Nothing else replaces d. */
  ghost predicate Newest(ds: map<nat, Delivery>, d: nat) {
    forall e :: e in ds ==> ds[e].from != Some(d)
  }

  ghost predicate AllSuperseded(ds: map<nat, Delivery>, o: nat) {
    forall d :: d in ds && ds[d].order == o ==> Superseded(ds[d].status)
  }

  /** A new delivery may start the chain of an order without deliveries, or continue
      after the newest when every delivery of the order is superseded. */
  ghost predicate MayFollow(max: int, ds: map<nat, Delivery>, o: nat, from: Option<nat>) {
    match from
    case None => NoDelivery(ds, o)
    case Some(f) =>
      && f in ds && ds[f].order == o && Newest(ds, f) && AllSuperseded(ds, o) && ChainLength(ds, f) < max
  }

  lemma NewDeliveryKeepsChains(max: int, ds: map<nat, Delivery>, id: nat, row: Delivery)
    requires ChainsOk(ds) && LengthsOk(max, ds)
    requires (forall d :: d in ds ==> d < id) && MayFollow(max, ds, row.order, row.from)
    ensures ChainsOk(ds[id := row]) && LengthsOk(max, ds[id := row])
  {
    var ds' := ds[id := row];
    forall d | d in ds' ensures LinkOk(ds', d) && ChainLength(ds', d) <= Limit(max) {
      if d in ds {
        assert LinkOk(ds, d);
        SameLinks(ds, ds', d);
      } else if row.from.Some? {
        SameLinks(ds, ds', row.from.value);
      }
    }
    forall d, e | d in ds' && e in ds' && d != e ensures Apart(ds', d, e) {
      if d in ds && e in ds { assert Apart(ds, d, e); }
    }
  }

  /** A delivery that is not superseded is nobody's predecessor. */
  lemma CurrentIsNewest(ds: map<nat, Delivery>, d: nat)
    requires ChainsOk(ds) && d in ds && !Superseded(ds[d].status)
    ensures Newest(ds, d)
  {
  }

  lemma OthersAreSuperseded(ds: map<nat, Delivery>, d: nat)
    requires ChainsOk(ds) && d in ds && !Superseded(ds[d].status)
    ensures forall e :: e in ds && e != d && ds[e].order == ds[d].order ==> Superseded(ds[e].status)
  {
    forall e | e in ds && e != d && ds[e].order == ds[d].order ensures Superseded(ds[e].status) {
      assert Apart(ds, d, e);
    }
  }

  // ---- one order's status ------------------------------------------------------------

  /** Writing a status to one order and statuses to deliveries keeps the invariant
      when the order's own rows still fit. */
  lemma StatusWriteKeeps(max: int, s: State, s': State, o: nat, status: OrderStatus)
    requires Inv(max, s) && o in s.orders && Evolves(s.deliveries, s'.deliveries)
    requires s' == s.(orders := s.orders[o := s.orders[o].(status := status)], deliveries := s'.deliveries, busy := s'.busy)
    requires forall d :: d in s.deliveries && s.deliveries[d].order == o ==> Fits(status, s'.deliveries[d].status)
    requires forall d :: d in s.deliveries && s.deliveries[d].order != o ==> s'.deliveries[d] == s.deliveries[d]
    requires status.PendingPayment? ==> s.orders[o].status.PendingPayment?
    requires s.orders[o].placed == 0 ==> status.PendingPayment? || status.Cancelled?
    ensures Inv(max, s')
  {
    EvolvingKeepsChains(max, s.deliveries, s'.deliveries);
    forall k | k in s'.sessions ensures SessionOk(s', k) { assert SessionOk(s, k); }
    assert forall j, k {:trigger OneOpen(s'.sessions, j, k)} :: j in s'.sessions && k in s'.sessions && j != k ==> OneOpen(s.sessions, j, k);
    forall t | t in s'.charges ensures ChargeOk(s'.orders, s'.charges[t]) { assert ChargeOk(s.orders, s.charges[t]); }
    forall x | x in s'.orders ensures OrderOk(s'.charges, x, s'.orders[x]) { assert OrderOk(s.charges, x, s.orders[x]); }
  }

  lemma DeliveryWriteKeeps(max: int, s: State, s': State)
    requires Inv(max, s) && Evolves(s.deliveries, s'.deliveries)
    requires s' == s.(deliveries := s'.deliveries, busy := s'.busy)
    requires CoupledOk(s.orders, s'.deliveries)
    ensures Inv(max, s')
  {
    EvolvingKeepsChains(max, s.deliveries, s'.deliveries);
    forall k | k in s'.sessions ensures SessionOk(s', k) { assert SessionOk(s, k); }
  }

  lemma PresenceIsSeparate(max: int, s: State, online: set<Agent>, geo: set<Agent>, busy: set<Agent>)
    requires Inv(max, s)
    ensures Inv(max, s.(online := online, geo := geo, busy := busy))
  {
  }

  // ---- order.service.ts ----------------------------------------------------------

  lemma PlaceOrderKeeps(max: int, s: State, o: nat, online: bool, total: int, now: int, reserved: bool)
    requires Inv(max, s) && o !in s.orders
    ensures Inv(max, PlaceOrder(s, o, online, total, now, reserved).0)
  {
  }

  /** The actor is never the agent or the system, so the table lets this call write
      only these statuses. */
  lemma OwnMoves(from: OrderStatus, to: OrderStatus, actor: RequestActor)
    requires ResolveActor(actor).Ok? && MayMove(from, to, ResolveActor(actor).value)
    ensures to.Accepted? || to.Rejected? || to.Preparing? || to.Ready? || to.Cancelled?
    ensures from.PendingPayment? || from.Assigned? ==> to.Cancelled?
    ensures !(from.Picked? || from.Delivered? || from.Cancelled? || from.Rejected?)
  {
  }

  lemma UpdateStatusKeeps(max: int, s: State, o: nat, target: OrderStatus, actor: RequestActor, now: int)
    requires Inv(max, s)
    ensures Inv(max, UpdateStatus(s, o, target, actor, now).0)
  {
    var r := UpdateStatus(s, o, target, actor, now);
    if r.1.Done? {
      OwnMoves(s.orders[o].status, target, actor);
      assert OrderOk(s.charges, o, s.orders[o]);
      if target.Cancelled? && s.orders[o].status.Assigned? {
        CancelActiveEffect(s, o);
      } else {
        assert NoDelivery(s.deliveries, o);
      }
      StatusWriteKeeps(max, s, r.0, o, target);
    }
  }

  function CancelledIfActive(row: Delivery, o: nat): Delivery {
    if row.order == o && Active(row.status) then row.(status := DeliveryStatus.Cancelled) else row
  }

  lemma CancelActiveEffect(s: State, o: nat)
    requires o in s.orders
    ensures var s1 := SetOrder(s, o, OrderStatus.Cancelled); var s' := CancelActive(s1, o);
      && Evolves(s.deliveries, s'.deliveries)
      && s' == s1.(deliveries := s'.deliveries, busy := s'.busy)
      && forall d :: d in s.deliveries ==> s'.deliveries[d] == CancelledIfActive(s.deliveries[d], o)
  {
  }

  // ---- assignment ------------------------------------------------------------------

  lemma CreateAssignmentKeeps(max: int, s: State, o: nat, a: Agent, from: Option<nat>, id: nat)
    requires Inv(max, s) && o in s.orders && (forall d :: d in s.deliveries ==> d < id)
    requires MayFollow(max, s.deliveries, o, from)
    requires s.orders[o].status.Ready? || s.orders[o].status.Assigned? || s.orders[o].status.Picked?
    ensures Inv(max, CreateAssignment(s, o, a, from, id))
  {
    var s' := CreateAssignment(s, o, a, from, id);
    var row := Delivery(o, a, DeliveryStatus.Assigned, from);
    NewDeliveryKeepsChains(max, s.deliveries, id, row);
    assert s'.deliveries == s.deliveries[id := row];
    assert OrderOk(s.charges, o, s.orders[o]);
    forall d | d in s'.deliveries && d != id ensures Fits(s'.orders[s'.deliveries[d].order].status, s'.deliveries[d].status) {
      assert Fits(s.orders[s.deliveries[d].order].status, s.deliveries[d].status);
    }
    forall k | k in s'.sessions ensures SessionOk(s', k) { assert SessionOk(s, k); }
    forall t | t in s'.charges ensures ChargeOk(s'.orders, s'.charges[t]) { assert ChargeOk(s.orders, s.charges[t]); }
    forall x | x in s'.orders ensures OrderOk(s'.charges, x, s'.orders[x]) { assert OrderOk(s.charges, x, s.orders[x]); }
  }

  lemma TryAssignKeeps(max: int, s: State, o: nat, from: Option<nat>, x: Search)
    requires Inv(max, s) && o in s.orders && (forall d :: d in s.deliveries ==> d < x.id)
    requires MayFollow(max, s.deliveries, o, from)
    requires s.orders[o].status.Ready? || s.orders[o].status.Assigned? || s.orders[o].status.Picked?
    ensures Inv(max, TryAssign(s, o, from, x).0)
  {
    var c := Candidate(s, x);
    if c.Some? { CreateAssignmentKeeps(max, s, o, c.value, from, x.id); }
  }

  /** A READY order has no deliveries at all, so its first one starts the chain. */
  lemma ReadyHasNone(max: int, s: State, o: nat)
    requires Inv(max, s) && o in s.orders && s.orders[o].status.Ready?
    ensures NoDelivery(s.deliveries, o)
  {
  }

  lemma AssignKeeps(max: int, s: State, o: nat, agent: Option<Agent>, x: Search)
    requires Inv(max, s) && Sees(s, x)
    ensures Inv(max, Assign(s, o, agent, x).0) && Inv(max, TryAutoAssign(s, o, x))
  {
    if o in s.orders && s.orders[o].status.Ready? {
      ReadyHasNone(max, s, o);
      hide Inv, Candidate;
      TryAssignKeeps(max, s, o, None, x);
      if agent.Some? { CreateAssignmentKeeps(max, s, o, agent.value, None, x.id); }
    }
  }

  /** Superseding the current delivery of an order leaves it free to be followed. */
  lemma SupersedeKeeps(max: int, s: State, d: nat, status: DeliveryStatus, s': State)
    requires Inv(max, s) && d in s.deliveries && Active(s.deliveries[d].status) && Superseded(status)
    requires s' == s.(deliveries := s.deliveries[d := s.deliveries[d].(status := status)], busy := s'.busy)
    ensures Inv(max, s')
    ensures ChainLength(s'.deliveries, d) == ChainLength(s.deliveries, d)
    ensures ChainLength(s.deliveries, d) < max ==> MayFollow(max, s'.deliveries, s.deliveries[d].order, Some(d))
    ensures var o := s.deliveries[d].order; o in s'.orders && (s'.orders[o].status.Assigned? || s'.orders[o].status.Picked?)
  {
    DeliveryWriteKeeps(max, s, s');
    hide SessionsOk, ChargesOk, OrdersOk, LengthsOk;
    SameLinks(s.deliveries, s'.deliveries, d);
    CurrentIsNewest(s.deliveries, d);
    OthersAreSuperseded(s.deliveries, d);
    assert Newest(s'.deliveries, d);
    assert AllSuperseded(s'.deliveries, s.deliveries[d].order);
  }

  lemma ReassignKeeps(max: int, s: State, o: nat, x: Search)
    requires Inv(max, s) && (forall d :: d in s.deliveries ==> d < x.id)
    ensures Inv(max, Reassign(s, max, o, x).0)
  {
    var active := First(ActiveOf(s.deliveries, o));
    if o in s.orders && active.Some? && ChainLength(s.deliveries, active.value) < max {
      var d := active.value;
      var freed := MarkFree(SetDelivery(s, d, Reassigned), s.deliveries[d].agent);
      SupersedeKeeps(max, s, d, Reassigned, freed);
      TryAssignKeeps(max, freed, o, active, x);
    }
  }

  // ---- delivery progress ----------------------------------------------------------

  lemma RejectedKeeps(max: int, s: State, d: nat, x: Search)
    requires Inv(max, s) && Sees(s, x) && d in s.deliveries && s.deliveries[d].status.Assigned?
    ensures Inv(max, UpdateDelivery(s, max, d, s.deliveries[d].agent, DeliveryStatus.Rejected, x).0)
  {
    var row := s.deliveries[d];
    var freed := MarkFree(SetDelivery(s, d, DeliveryStatus.Rejected), row.agent);
    SupersedeKeeps(max, s, d, DeliveryStatus.Rejected, freed);
    if ChainLength(s.deliveries, d) < max { TryAssignKeeps(max, freed, row.order, Some(d), x); }
  }

  /** The delivery and its order move together. */
  lemma ProgressKeeps(max: int, s: State, s': State, d: nat, target: DeliveryStatus, status: OrderStatus)
    requires Inv(max, s) && d in s.deliveries && MayDeliver(s.deliveries[d].status, target)
    requires (target.Picked? && status.Picked?) || (target.Delivered? && status.Delivered?)
    requires s' == SetOrder(SetDelivery(s, d, target), s.deliveries[d].order, status).(busy := s'.busy)
    ensures Inv(max, s')
  {
    var o := s.deliveries[d].order;
    OthersAreSuperseded(s.deliveries, d);
    assert OrderOk(s.charges, o, s.orders[o]);
    StatusWriteKeeps(max, s, s', o, status);
  }

  lemma UpdateDeliveryKeeps(max: int, s: State, d: nat, agent: Agent, target: DeliveryStatus, x: Search)
    requires Inv(max, s) && Sees(s, x)
    ensures Inv(max, UpdateDelivery(s, max, d, agent, target, x).0)
  {
    var r := UpdateDelivery(s, max, d, agent, target, x);
    if r.1.Done? {
      match target
      case Rejected => RejectedKeeps(max, s, d, x);
      case Picked => ProgressKeeps(max, s, r.0, d, target, OrderStatus.Picked);
      case Delivered => ProgressKeeps(max, s, r.0, d, target, OrderStatus.Delivered);
      case _ => DeliveryWriteKeeps(max, s, r.0);
    }
  }

  // ---- payments --------------------------------------------------------------------

  lemma HasCapturedStays(sessions: map<nat, Session>, sessions': map<nat, Session>, o: nat)
    requires HasCaptured(sessions, o)
    requires forall k :: k in sessions && sessions[k].status.Captured? ==> k in sessions' && sessions'[k] == sessions[k]
    ensures HasCaptured(sessions', o)
  {
    var k :| k in sessions && sessions[k].order == o && sessions[k].status.Captured?;
    assert k in sessions';
  }

  /** A session comes or changes, other than to or from CAPTURED; a failed charge may. */
  lemma CapturesStay(sessions: map<nat, Session>, charges: map<string, Charge>, k: nat, row: Session,
                     charges': map<string, Charge>)
    requires CapturesOk(sessions, charges) && !row.status.Captured? && (k in sessions ==> !sessions[k].status.Captured?)
    requires forall o :: Paid(charges', o) <==> Paid(charges, o)
    ensures CapturesOk(sessions[k := row], charges')
  {
    var sessions' := sessions[k := row];
    forall t | t in charges' && charges'[t].succeeded ensures HasCaptured(sessions', charges'[t].order) {
      var o := charges'[t].order;
      assert Paid(charges', o);
      var u :| u in charges && charges[u].order == o && charges[u].succeeded;
      HasCapturedStays(sessions, sessions', o);
    }
    forall i, j | i in sessions' && j in sessions' && i != j ensures OneCaptured(sessions', i, j) {
      if i in sessions && j in sessions { assert OneCaptured(sessions, i, j); }
    }
  }

  /** An order without a capture gets its session and its charge together. */
  lemma CapturesGrow(sessions: map<nat, Session>, charges: map<string, Charge>, k: nat, txn: string, c: Charge)
    requires CapturesOk(sessions, charges) && k in sessions && !sessions[k].status.Captured? && txn !in charges
    requires c.succeeded && c.order == sessions[k].order && !Paid(charges, c.order)
    ensures CapturesOk(sessions[k := sessions[k].(status := SessionStatus.Captured)], charges[txn := c])
  {
    var sessions', charges' := sessions[k := sessions[k].(status := SessionStatus.Captured)], charges[txn := c];
    forall o ensures Paid(charges', o) <==> Paid(charges, o) || o == c.order { PaidAfter(charges, txn, c, o); }
    forall t | t in charges' && charges'[t].succeeded ensures HasCaptured(sessions', charges'[t].order)
    {
      if t == txn { assert sessions'[k].status.Captured?; } else { HasCapturedStays(sessions, sessions', charges[t].order); }
    }
    forall i, j | i in sessions' && j in sessions' && i != j ensures OneCaptured(sessions', i, j) {
      assert OneCaptured(sessions, i, j);
    }
  }

  lemma InitPaymentKeeps(max: int, s: State, o: nat, mine: bool, id: nat)
    requires Inv(max, s) && id !in s.sessions
    ensures Inv(max, InitPayment(s, o, mine, id).0)
  {
    var s' := InitPayment(s, o, mine, id).0;
    if s' != s {
      assert OrderOk(s.charges, o, s.orders[o]);
      assert NoDelivery(s.deliveries, o);
      CapturesStay(s.sessions, s.charges, id, s'.sessions[id], s.charges);
      forall k | k in s'.sessions ensures SessionOk(s', k) { if k != id { assert SessionOk(s, k); } }
      forall j, k | j in s'.sessions && k in s'.sessions && j != k ensures OneOpen(s'.sessions, j, k) {
        if j != id && k != id { assert OneOpen(s.sessions, j, k); }
        else { assert (if j == id then k else j) !in OpenSessions(s.sessions, o); }
      }
    }
  }

  lemma CapturedKeeps(max: int, s: State, o: nat, k: nat, txn: string)
    requires Inv(max, s) && o in s.orders && k in OpenSessions(s.sessions, o) && txn !in s.charges
    ensures Inv(max, PaymentCaptured(s, o, k, txn))
  {
    var s' := PaymentCaptured(s, o, k, txn);
    assert SessionOk(s, k) && OrderOk(s.charges, o, s.orders[o]);
    CaptureKeepsSessions(s, o, k, txn);
    CapturesGrow(s.sessions, s.charges, k, txn, s'.charges[txn]);
    forall t | t in s'.charges ensures ChargeOk(s'.orders, s'.charges[t]) { if t != txn { assert ChargeOk(s.orders, s.charges[t]); } }
    forall t, u | t in s'.charges && u in s'.charges && t != u ensures OneSuccess(s'.charges, t, u) {
      if t != txn && u != txn { assert OneSuccess(s.charges, t, u); }
      else { assert ChargeOk(s.orders, s.charges[if t == txn then u else t]); }
    }
    forall x | x in s'.orders ensures OrderOk(s'.charges, x, s'.orders[x]) {
      assert OrderOk(s.charges, x, s.orders[x]);
      PaidAfter(s.charges, txn, s'.charges[txn], x);
    }
  }

  lemma PaidAfter(charges: map<string, Charge>, txn: string, c: Charge, o: nat)
    requires txn !in charges
    ensures Paid(charges[txn := c], o) <==> Paid(charges, o) || (c.order == o && c.succeeded)
  {
    var charges' := charges[txn := c];
    if t :| t in charges && charges[t].order == o && charges[t].succeeded { assert charges'[t] == charges[t]; }
    if c.order == o && c.succeeded { assert txn in charges' && charges'[txn] == c; }
  }

  lemma CaptureKeepsSessions(s: State, o: nat, k: nat, txn: string)
    requires SessionsOk(s) && o in s.orders && k in OpenSessions(s.sessions, o)
    ensures SessionsOk(PaymentCaptured(s, o, k, txn))
  {
    var s' := PaymentCaptured(s, o, k, txn);
    forall j | j in s'.sessions ensures SessionOk(s', j) {
      assert SessionOk(s, j);
      if j != k { assert OneOpen(s.sessions, j, k); }
    }
    forall i, j | i in s'.sessions && j in s'.sessions && i != j ensures OneOpen(s'.sessions, i, j) {
      assert OneOpen(s.sessions, i, j);
    }
  }

  lemma PaymentFailedKeeps(max: int, s: State, o: nat, k: nat, txn: string)
    requires Inv(max, s) && k in OpenSessions(s.sessions, o) && txn !in s.charges
    ensures Inv(max, PaymentFailed(s, o, k, txn))
  {
    var s' := PaymentFailed(s, o, k, txn);
    forall j | j in s'.sessions ensures SessionOk(s', j) { assert SessionOk(s, j); }
    forall i, j | i in s'.sessions && j in s'.sessions && i != j ensures OneOpen(s'.sessions, i, j) {
      assert OneOpen(s.sessions, i, j);
    }
    forall t | t in s'.charges ensures ChargeOk(s'.orders, s'.charges[t]) { if t != txn { assert ChargeOk(s.orders, s.charges[t]); } }
    forall t, u | t in s'.charges && u in s'.charges && t != u ensures OneSuccess(s'.charges, t, u) {
      if t != txn && u != txn { assert OneSuccess(s.charges, t, u); }
    }
    forall x ensures Paid(s'.charges, x) <==> Paid(s.charges, x) { PaidAfter(s.charges, txn, s'.charges[txn], x); }
    CapturesStay(s.sessions, s.charges, k, s'.sessions[k], s'.charges);
    forall x | x in s'.orders ensures OrderOk(s'.charges, x, s'.orders[x]) { assert OrderOk(s.charges, x, s.orders[x]); }
  }

  lemma RecordingIsSeparate(max: int, s: State, recorded: set<string>)
    requires Inv(max, s)
    ensures Inv(max, s.(recorded := recorded))
  {
  }

  lemma WebhookKeeps(max: int, s: State, o: nat, txn: string, event: string, status: string)
    requires Inv(max, s)
    ensures Inv(max, Webhook(s, o, txn, event, status).0)
  {
    var recorded := s.recorded + {EventId(txn, event, status)};
    RecordingIsSeparate(max, s, recorded);
    var seen := s.(recorded := recorded);
    var session := FindOpenSession(s.sessions, o);
    if o in s.orders && session.Some? && txn !in s.charges {
      CapturedKeeps(max, seen, o, session.value, txn);
      PaymentFailedKeeps(max, seen, o, session.value, txn);
    }
  }

  // ---- every call -------------------------------------------------------------------

  lemma GoOfflineKeeps(max: int, s: State, a: Agent, x: Search)
    requires Inv(max, s) && Sees(GoneOffline(s, a), x)
    ensures Inv(max, GoOffline(s, max, a, x).0)
  {
    var gone := GoneOffline(s, a);
    PresenceIsSeparate(max, s, gone.online, gone.geo, gone.busy);
    var active := First(ActiveBy(s.deliveries, a));
    if active.Some? { ReassignKeeps(max, gone, s.deliveries[active.value].order, x); }
  }

  lemma EveryCallKeeps(max: int, s: State, a: Action)
    requires Inv(max, s) && Enabled(s, a)
    ensures Inv(max, Applied(max, s, a))
  {
    match a
    case Place(o, online, total, now, reserved) => PlaceOrderKeeps(max, s, o, online, total, now, reserved);
    case Move(o, target, actor, now) => UpdateStatusKeeps(max, s, o, target, actor, now);
    case AssignOrder(o, agent, x) => AssignKeeps(max, s, o, agent, x);
    case AutoAssign(o, x) => AssignKeeps(max, s, o, None, x);
    case ReassignOrder(o, x) => ReassignKeeps(max, s, o, x);
    case MoveDelivery(d, agent, target, x) => UpdateDeliveryKeeps(max, s, d, agent, target, x);
    case Init(o, mine, id) => InitPaymentKeeps(max, s, o, mine, id);
    case Notify(o, txn, event, status) => WebhookKeeps(max, s, o, txn, event, status);
    case LogIn(agent) => var s' := GoOnline(s, agent); PresenceIsSeparate(max, s, s'.online, s'.geo, s'.busy);
    case LogOut(agent, x) => GoOfflineKeeps(max, s, agent, x);
    case Beat(agent) => PresenceIsSeparate(max, s, s.online, s.geo + {agent}, s.busy);
  }
}
