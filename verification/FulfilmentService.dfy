/** The services' methods, statement by statement, against what FulfilmentModel says
    each call does to the tables. */
module FulfilmentService {
  import opened Prelude
  import opened Sorting
  import opened Presence
  import opened FulfilmentModel
  import opened FulfilmentInvariant
  import opened FulfilmentOutcomes

  class Region {
    const maxReassignmentAttempts: int
    var orders: map<nat, Order>
    var deliveries: map<nat, Delivery>
    var sessions: map<nat, Session>
    var charges: map<string, Charge>
    var recorded: set<string>
    var online: set<Agent>
    var geo: set<Agent>
    var busy: set<Agent>

    constructor (max: int)
      ensures Valid() && maxReassignmentAttempts == max && Tables() == NOTHING
    {
      maxReassignmentAttempts := max;
      orders, deliveries, sessions, charges := map[], map[], map[], map[];
      recorded, online, geo, busy := {}, {}, {}, {};
    }

    ghost function Tables(): State
      reads this
    {
      State(orders, deliveries, sessions, charges, recorded, online, geo, busy)
    }

    /** What every service call keeps (FulfilmentInvariant). */
    ghost predicate Valid()
      reads this
    {
      Inv(maxReassignmentAttempts, Tables())
    }

    // ---- repositories -------------------------------------------------------------

    method UpdateOrderStatus(o: nat, status: OrderStatus)
      requires o in orders
      modifies this`orders
      ensures orders == old(orders)[o := old(orders)[o].(status := status)]
    {
      orders := orders[o := orders[o].(status := status)];
    }

    method UpdateDeliveryStatus(d: nat, status: DeliveryStatus)
      requires d in deliveries
      modifies this`deliveries
      ensures deliveries == old(deliveries)[d := old(deliveries)[d].(status := status)]
    {
      deliveries := deliveries[d := deliveries[d].(status := status)];
    }

    /** Walks reassigned_from back to the first assignment. */
    method CountReassignmentChain(d: nat) returns (count: nat)
      requires ChainsOk(deliveries)
      ensures count == ChainLength(deliveries, d)
    {
      count := 1;
      var currentId := d;
      while currentId in deliveries && deliveries[currentId].from.Some?
        invariant count >= 1
        invariant count - 1 + ChainLength(deliveries, currentId) == ChainLength(deliveries, d)
        decreases currentId
      {
        assert LinkOk(deliveries, currentId);
        currentId := deliveries[currentId].from.value;
        count := count + 1;
      }
    }

    /** Every active delivery of the order ends; the agent of one of them is freed,
        which is all of them where there is at most one. */
    method CancelActiveDeliveryForOrder(o: nat)
      modifies this`deliveries, this`busy
      ensures Tables() == CancelActive(old(Tables()), o)
      ensures ActiveOf(deliveries, o) == {} && deliveries.Keys == old(deliveries).Keys
      ensures forall d :: d in old(deliveries) ==> deliveries[d] == CancelledIfActive(old(deliveries)[d], o)
      ensures ChainsOk(old(deliveries)) ==>
                forall d :: d in ActiveOf(old(deliveries), o) ==> busy == old(busy) - {old(deliveries)[d].agent}
    {
      var active := ActiveOf(deliveries, o);
      var freed := First(active);
      var before := deliveries;
      deliveries := map d | d in before ::
        if d in active then before[d].(status := DeliveryStatus.Cancelled) else before[d];
      if freed.Some? { busy := busy - {before[freed.value].agent}; }
      if ChainsOk(before) {
        forall d | d in active ensures freed == Some(d) { OnlyActive(before, o, d); }
      }
    }

    /** False when the event was recorded before. */
    method RecordWebhookEventIfNew(event: string) returns (isNew: bool)
      modifies this`recorded
      ensures isNew == (event !in old(recorded)) && recorded == old(recorded) + {event}
    {
      isNew := event !in recorded;
      recorded := recorded + {event};
    }

    /** The unique key on the provider's transaction id rejects a second row. */
    method CreateCharge(txn: string, charge: Charge) returns (ok: bool)
      modifies this`charges
      ensures ok == (txn !in old(charges))
      ensures charges == if ok then old(charges)[txn := charge] else old(charges)
    {
      ok := txn !in charges;
      if ok { charges := charges[txn := charge]; }
    }

    // ---- order.service.ts -----------------------------------------------------------

    method PlaceOrder(o: nat, isOnline: bool, total: int, now: int, reserved: bool) returns (reply: Reply)
      requires Valid() && o !in orders
      modifies this
      ensures Valid() && PlaceOutcome(old(Tables()), Tables(), reply, o, isOnline, total, now)
      ensures (Tables(), reply) == FulfilmentModel.PlaceOrder(old(Tables()), o, isOnline, total, now, reserved)
    {
      hide PlaceOutcome, ChainsOk, LengthsOk, CoupledOk, SessionsOk, ChargesOk, OrdersOk;
      PlaceOrderKeeps(maxReassignmentAttempts, Tables(), o, isOnline, total, now, reserved);
      PlacedOrder(maxReassignmentAttempts, Tables(), o, isOnline, total, now, reserved);
      var status := if isOnline then PendingPayment else Placed;
      var placed := 0;
      if !isOnline { placed := 1; }
      orders := orders[o := Order(status, isOnline, total, now, placed)];
      if !reserved {
        UpdateOrderStatus(o, OrderStatus.Cancelled);
        return Refused(OutOfStock);
      }
      reply := Done;
    }

    method UpdateStatus(o: nat, target: OrderStatus, actor: RequestActor, now: int) returns (reply: Reply)
      requires Valid()
      modifies this
      ensures Valid() && StatusOutcome(old(Tables()), Tables(), reply, o, target, actor, now)
      ensures (Tables(), reply) == FulfilmentModel.UpdateStatus(old(Tables()), o, target, actor, now)
    {
      hide StatusOutcome, ChainsOk, LengthsOk, CoupledOk, SessionsOk, ChargesOk, OrdersOk;
      UpdateStatusKeeps(maxReassignmentAttempts, Tables(), o, target, actor, now);
      UpdatedStatus(maxReassignmentAttempts, Tables(), o, target, actor, now);
      if o !in orders { return Refused(OrderNotFound); }
      var order := orders[o];
      var resolved := ResolveActor(actor);
      if resolved.Err? { return Refused(resolved.error); }
      if !MayMove(order.status, target, resolved.value) { return Refused(InvalidTransition); }
      if target.Cancelled? && resolved.value.Customer? {
        if !WithinWindow(order, now) { return Refused(CancellationWindowExpired); }
      }
      UpdateOrderStatus(o, target);
      if target.Cancelled? && order.status.Assigned? { CancelActiveDeliveryForOrder(o); }
      reply := Done;
    }

    // ---- assignment.service.ts --------------------------------------------------------

    method CreateAssignment(o: nat, a: Agent, from: Option<nat>, id: nat)
      requires o in orders
      modifies this
      ensures Tables() == FulfilmentModel.CreateAssignment(old(Tables()), o, a, from, id)
    {
      deliveries := deliveries[id := Delivery(o, a, DeliveryStatus.Assigned, from)];
      UpdateOrderStatus(o, OrderStatus.Assigned);
      busy := busy + {a};
    }

    method TryAssign(o: nat, from: Option<nat>, x: Search) returns (found: bool)
      requires o in orders && Distinct(x.near)
      modifies this
      ensures (Tables(), found) == FulfilmentModel.TryAssign(old(Tables()), o, from, x)
    {
      var candidates := FindNearbyOnlineAgents(x.near, busy, CANDIDATE_LIMIT);
      if candidates == [] { candidates := Take(Filter(x.rows, Idle(deliveries)), CANDIDATE_LIMIT); }
      found := candidates != [];
      if found { CreateAssignment(o, candidates[0], from, x.id); }
    }

    // ---- delivery.service.ts ----------------------------------------------------------

    method Assign(o: nat, agent: Option<Agent>, x: Search) returns (reply: Reply)
      requires Valid() && Sees(Tables(), x)
      modifies this
      ensures Valid() && AssignOutcome(old(Tables()), Tables(), reply, o, agent, x)
      ensures (Tables(), reply) == FulfilmentModel.Assign(old(Tables()), o, agent, x)
    {
      AssignKeeps(maxReassignmentAttempts, Tables(), o, agent, x);
      AssignedDelivery(maxReassignmentAttempts, Tables(), o, agent, x);
      if o !in orders { return Refused(OrderNotFound); }
      if !orders[o].status.Ready? { return Refused(OrderNotReady); }
      var existing := First(ActiveOf(deliveries, o));
      if existing.Some? { return Refused(OrderAlreadyHasActiveDelivery); }
      match agent
      case Some(a) =>
        if ActiveBy(deliveries, a) != {} { return Refused(NoEligibleAgents); }
        CreateAssignment(o, a, None, x.id);
        reply := Done;
      case None =>
        var found := TryAssign(o, None, x);
        reply := if found then Done else Refused(NoEligibleAgents);
    }

    /** Does what Assign would, and never fails. */
    method TryAutoAssign(o: nat, x: Search)
      requires Valid() && Sees(Tables(), x)
      modifies this
      ensures Valid() && exists reply :: AssignOutcome(old(Tables()), Tables(), reply, o, None, x)
    {
      AssignKeeps(maxReassignmentAttempts, Tables(), o, None, x);
      AssignedDelivery(maxReassignmentAttempts, Tables(), o, None, x);
      if o !in orders || !orders[o].status.Ready? { return; }
      var existing := First(ActiveOf(deliveries, o));
      if existing.Some? { return; }
      var _ := TryAssign(o, None, x);
    }

    method Reassign(o: nat, x: Search) returns (reply: Reply)
      requires Valid() && Sees(Tables(), x)
      modifies this
      ensures Valid() && ReassignOutcome(maxReassignmentAttempts, old(Tables()), Tables(), reply, o, x)
      ensures (Tables(), reply) == FulfilmentModel.Reassign(old(Tables()), maxReassignmentAttempts, o, x)
    {
      hide ReassignOutcome, LengthsOk, CoupledOk, SessionsOk, ChargesOk, OrdersOk;
      ReassignKeeps(maxReassignmentAttempts, Tables(), o, x);
      ReassignedDelivery(maxReassignmentAttempts, Tables(), o, x);
      if o !in orders { return Refused(OrderNotFound); }
      var active := First(ActiveOf(deliveries, o));
      if active.None? { return Refused(NoActiveDelivery); }
      var chainLength := CountReassignmentChain(active.value);
      if chainLength >= maxReassignmentAttempts { return Refused(MaxReassignmentAttemptsReached); }
      var agent := deliveries[active.value].agent;
      UpdateDeliveryStatus(active.value, Reassigned);
      busy := busy - {agent};
      var found := TryAssign(o, active, x);
      reply := if found then Done else Refused(NoEligibleAgents);
    }

    method TryReassignAfterRejection(d: nat, o: nat, x: Search)
      requires Distinct(x.near) && ChainsOk(deliveries) && o in orders
      modifies this
      ensures Tables() ==
        if ChainLength(old(deliveries), d) >= maxReassignmentAttempts then old(Tables())
        else FulfilmentModel.TryAssign(old(Tables()), o, Some(d), x).0
    {
      var chainLength := CountReassignmentChain(d);
      if chainLength < maxReassignmentAttempts { var _ := TryAssign(o, Some(d), x); }
    }

    method UpdateDelivery(d: nat, agent: Agent, target: DeliveryStatus, x: Search) returns (reply: Reply)
      requires Valid() && Sees(Tables(), x)
      modifies this
      ensures Valid() && DeliveryOutcome(maxReassignmentAttempts, old(Tables()), Tables(), reply, d, agent, target, x)
      ensures (Tables(), reply) ==
        FulfilmentModel.UpdateDelivery(old(Tables()), maxReassignmentAttempts, d, agent, target, x)
    {
      hide DeliveryOutcome, LengthsOk, CoupledOk, SessionsOk, ChargesOk, OrdersOk;
      UpdateDeliveryKeeps(maxReassignmentAttempts, Tables(), d, agent, target, x);
      UpdatedDelivery(maxReassignmentAttempts, Tables(), d, agent, target, x);
      if d !in deliveries || deliveries[d].order !in orders { return Refused(DeliveryNotFound); }
      var row := deliveries[d];
      if row.agent != agent { return Refused(UnAuthorized); }
      if !MayDeliver(row.status, target) { return Refused(InvalidTransition); }
      ghost var before := deliveries;
      UpdateDeliveryStatus(d, target);
      SameLinks(before, deliveries, d);
      if Superseded(target) { EvolvingKeepsChains(maxReassignmentAttempts, before, deliveries); }
      if target.Picked? {
        UpdateOrderStatus(row.order, OrderStatus.Picked);
      } else if target.Delivered? {
        UpdateOrderStatus(row.order, OrderStatus.Delivered);
        busy := busy - {agent};
      } else if target.Rejected? {
        busy := busy - {agent};
        TryReassignAfterRejection(d, row.order, x);
      }
      reply := Done;
    }

    // ---- payment.service.ts and kashier-webhook.service.ts ------------------------------

    method InitPayment(o: nat, mine: bool, id: nat) returns (reply: Reply)
      requires Valid() && id !in sessions
      modifies this
      ensures Valid() && PaymentOutcome(old(Tables()), Tables(), reply, o, mine, id)
      ensures (Tables(), reply) == FulfilmentModel.InitPayment(old(Tables()), o, mine, id)
    {
      InitPaymentKeeps(maxReassignmentAttempts, Tables(), o, mine, id);
      StartedPayment(maxReassignmentAttempts, Tables(), o, mine, id);
      if o !in orders || !mine { return Refused(OrderNotFound); }
      if !orders[o].status.PendingPayment? { return Refused(OrderNotPendingPayment); }
      var existing := FindOpenSession(sessions, o);
      if existing.None? { sessions := sessions[id := Session(o, orders[o].total, Initialized)]; }
      reply := Done;
    }

    /** handlePayEvent; false when the insert of the charge is refused. */
    method HandlePayEvent(o: nat, txn: string, status: string) returns (ok: bool)
      requires o in orders
      modifies this`orders, this`sessions, this`charges
      ensures var s, session := old(Tables()), FindOpenSession(old(sessions), o);
        if session.None? then ok && Tables() == s
        else if txn in s.charges then !ok
        else ok && Tables() == if status == "SUCCESS" then PaymentCaptured(s, o, session.value, txn)
                               else PaymentFailed(s, o, session.value, txn)
    {
      var session := FindOpenSession(sessions, o);
      if session.None? { return true; }
      var k, row := session.value, sessions[session.value];
      var captured := status == "SUCCESS";
      sessions := sessions[k := row.(status := if captured then SessionStatus.Captured else Failed)];
      ok := CreateCharge(txn, Charge(o, row.amount, captured));
      if ok && captured {
        UpdateOrderStatus(o, Placed);
        orders := orders[o := orders[o].(placed := orders[o].placed + 1)];
      }
    }

    method Process(o: nat, txn: string, event: string, status: string) returns (reply: Reply)
      requires Valid()
      modifies this
      ensures Valid() && WebhookOutcome(old(Tables()), Tables(), reply, o, txn, event, status)
      ensures (Tables(), reply) == FulfilmentModel.Webhook(old(Tables()), o, txn, event, status)
    {
      hide WebhookOutcome, ChainsOk, LengthsOk, CoupledOk, SessionsOk, ChargesOk, OrdersOk;
      WebhookKeeps(maxReassignmentAttempts, Tables(), o, txn, event, status);
      NotifiedPayment(maxReassignmentAttempts, Tables(), o, txn, event, status);
      if o !in orders { return Done; }
      var savedOrders, savedSessions, savedCharges, savedRecorded := orders, sessions, charges, recorded;
      ghost var before := Tables();
      var isNew := RecordWebhookEventIfNew(EventId(txn, event, status));
      if !isNew {
        assert recorded == savedRecorded;
        return Done;
      }
      assert Tables() == before.(recorded := recorded);
      if event == "pay" {
        var ok := HandlePayEvent(o, txn, status);
        if !ok {
          orders, sessions, charges, recorded := savedOrders, savedSessions, savedCharges, savedRecorded;
          return Refused(DuplicateTransaction);
        }
      }
      reply := Done;
    }

    // ---- presence.service.ts --------------------------------------------------------------

    method GoOnline(a: Agent)
      requires Valid()
      modifies this
      ensures Valid() && LogInOutcome(old(Tables()), Tables(), a)
      ensures Tables() == FulfilmentModel.GoOnline(old(Tables()), a)
    {
      online := online + {a};
      geo := geo + {a};
      busy := busy - {a};
    }

    method GoOffline(a: Agent, x: Search) returns (reply: Reply)
      requires Valid() && Sees(FulfilmentModel.GoneOffline(Tables(), a), x)
      modifies this
      ensures Valid() && LogOutOutcome(maxReassignmentAttempts, old(Tables()), Tables(), reply, a, x)
      ensures (Tables(), reply) == FulfilmentModel.GoOffline(old(Tables()), maxReassignmentAttempts, a, x)
    {
      hide LogOutOutcome, ReassignOutcome, ChainsOk, LengthsOk, CoupledOk, SessionsOk, ChargesOk, OrdersOk;
      GoOfflineKeeps(maxReassignmentAttempts, Tables(), a, x);
      LoggedOut(maxReassignmentAttempts, Tables(), a, x);
      var active := First(ActiveBy(deliveries, a));
      if active.Some? && deliveries[active.value].status.Picked? { return Refused(AgentInActiveDelivery); }
      online := online - {a};
      geo := geo - {a};
      busy := busy - {a};
      PresenceIsSeparate(maxReassignmentAttempts, old(Tables()), online, geo, busy);
      if active.Some? { var _ := Reassign(deliveries[active.value].order, x); }
      reply := Done;
    }

    method Ping(a: Agent) returns (reply: Reply)
      requires Valid()
      modifies this
      ensures Valid() && PingOutcome(old(Tables()), Tables(), reply, a)
      ensures (Tables(), reply) == FulfilmentModel.Ping(old(Tables()), a)
    {
      if a !in online { return Refused(NotOnline); }
      geo := geo + {a};
      reply := Done;
    }
  }
}
