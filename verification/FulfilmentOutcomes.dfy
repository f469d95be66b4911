/** What a caller of each service call may rely on, told in terms of the rows before
    and after: when the call is refused, what it changes, and what it leaves alone. */
module FulfilmentOutcomes {
  import opened Prelude
  import opened Sorting
  import opened Presence
  import opened FulfilmentModel
  import opened FulfilmentInvariant
  import opened FulfilmentTheorems

  // ---- placing an order ------------------------------------------------------------

  /** One new row, of an order nobody has delivered, charged or opened a payment for;
      an order without stock is cancelled, for cash after it was announced. */
  ghost predicate PlaceOutcome(s: State, s': State, reply: Reply, o: nat, isOnline: bool, total: int, now: int) {
    && o in s'.orders && s' == s.(orders := s.orders[o := s'.orders[o]])
    && NoDelivery(s'.deliveries, o) && OpenSessions(s'.sessions, o) == {} && !Paid(s'.charges, o)
    && s'.orders[o] == Order(s'.orders[o].status, isOnline, total, now, if isOnline then 0 else 1)
    && match reply
       case Done => if isOnline then s'.orders[o].status.PendingPayment? else s'.orders[o].status.Placed?
       case Refused(e) => e.OutOfStock? && s'.orders[o].status.Cancelled?
  }

  lemma PlacedOrder(max: int, s: State, o: nat, isOnline: bool, total: int, now: int, reserved: bool)
    requires Inv(max, s) && o !in s.orders
    ensures var r := PlaceOrder(s, o, isOnline, total, now, reserved);
      PlaceOutcome(s, r.0, r.1, o, isOnline, total, now) && (r.1.Done? <==> reserved)
  {
    forall k | k in s.sessions && s.sessions[k].order == o ensures !Open(s.sessions[k].status) { assert SessionOk(s, k); }
    forall t | t in s.charges && s.charges[t].order == o ensures !s.charges[t].succeeded { assert ChargeOk(s.orders, s.charges[t]); }
  }

  // ---- a person changes an order's status ---------------------------------------------

  predicate StaffMove(from: OrderStatus, to: OrderStatus) {
    match from
    case Placed => to.Accepted? || to.Rejected?
    case Accepted => to.Preparing? || to.Cancelled?
    case Preparing => to.Ready? || to.Cancelled?
    case Ready => to.Cancelled?
    case _ => false
  }

  /** Who may ask for what: customers only take their own order back, in time;
      restaurants and admins move it up to READY; only an admin takes it from an agent. */
  predicate MayAsk(row: Order, target: OrderStatus, actor: RequestActor, now: int) {
    match actor.role
    case CustomerRole =>
      actor.mine && target.Cancelled? &&
      (row.status.PendingPayment? || (row.status.Placed? && now - row.createdAt <= 60_000))
    case RestaurantUser => actor.mine && actor.permitted && StaffMove(row.status, target)
    case SystemAdmin => StaffMove(row.status, target) || (row.status.Assigned? && target.Cancelled?)
    case AgentRole => false
  }

  ghost predicate PaymentsStay(s: State, s': State) {
    s'.sessions == s.sessions && s'.charges == s.charges && s'.recorded == s.recorded
  }

  /** After an accepted change nobody is delivering the order: the delivery it may have
      had is cancelled and its agent free. */
  ghost predicate StatusChanged(s: State, s': State, o: nat, target: OrderStatus)
    requires o in s.orders
  {
    && s'.orders == s.orders[o := s.orders[o].(status := target)]
    && s'.deliveries.Keys == s.deliveries.Keys && ActiveOf(s'.deliveries, o) == {}
    && (forall d :: d in s.deliveries && d !in ActiveOf(s.deliveries, o) ==> s'.deliveries[d] == s.deliveries[d])
    && (forall d :: d in ActiveOf(s.deliveries, o) ==>
          && s'.deliveries[d] == s.deliveries[d].(status := DeliveryStatus.Cancelled)
          && s'.busy == s.busy - {s.deliveries[d].agent})
    && (ActiveOf(s.deliveries, o) == {} ==> s'.busy == s.busy)
    && PaymentsStay(s, s') && s'.online == s.online && s'.geo == s.geo
  }

  ghost predicate StatusOutcome(s: State, s': State, reply: Reply, o: nat, target: OrderStatus, actor: RequestActor, now: int) {
    && (reply.Done? <==> o in s.orders && MayAsk(s.orders[o], target, actor, now))
    && (reply.Done? ==> StatusChanged(s, s', o, target))
    && (reply.Refused? ==> s' == s && StatusRefusal(s, o, target, actor, now, reply.error))
  }

  /** Why: an order nobody has; somebody with no business with it; a step that this
      actor's role never takes from here; a customer who would have been in time once. */
  ghost predicate StatusRefusal(s: State, o: nat, target: OrderStatus, actor: RequestActor, now: int, e: Error) {
    if o !in s.orders then e.OrderNotFound?
    else if !HasBusiness(actor) then e.UnAuthorized?
    else if actor.role.CustomerRole? && s.orders[o].status.Placed? && target.Cancelled? then
      e.CancellationWindowExpired? && now - s.orders[o].createdAt > 60_000
    else e.InvalidTransition?
  }

  predicate HasBusiness(actor: RequestActor) {
    actor.role.SystemAdmin? || (actor.role.CustomerRole? && actor.mine)
    || (actor.role.RestaurantUser? && actor.mine && actor.permitted)
  }

  /** The status table, the actor's role and the customer's window allow just this. */
  lemma AllowedIs(row: Order, target: OrderStatus, actor: RequestActor, now: int)
    ensures MayAsk(row, target, actor, now) <==>
      var resolved := ResolveActor(actor);
      && resolved.Ok? && MayMove(row.status, target, resolved.value)
      && !(target.Cancelled? && resolved.value.Customer? && !WithinWindow(row, now))
  {
    if ResolveActor(actor).Ok? { MoveIs(row.status, target, ResolveActor(actor).value); }
  }

  lemma UpdatedStatus(max: int, s: State, o: nat, target: OrderStatus, actor: RequestActor, now: int)
    requires Inv(max, s)
    ensures var r := UpdateStatus(s, o, target, actor, now);
      StatusOutcome(s, r.0, r.1, o, target, actor, now)
  {
    var r := UpdateStatus(s, o, target, actor, now);
    if o in s.orders {
      AllowedIs(s.orders[o], target, actor, now);
      if ResolveActor(actor).Ok? { MoveIs(s.orders[o].status, target, ResolveActor(actor).value); }
    }
    if r.1.Done? {
      if s.orders[o].status.Assigned? {
        CancelledDelivery(max, s, o);
      } else {
        NobodyDelivers(max, s, o, target, actor, now);
      }
    }
  }

  /** An order that a person may still move, other than by taking it from an agent, is
      not being delivered. */
  lemma NobodyDelivers(max: int, s: State, o: nat, target: OrderStatus, actor: RequestActor, now: int)
    requires Inv(max, s) && o in s.orders && MayAsk(s.orders[o], target, actor, now) && !s.orders[o].status.Assigned?
    ensures ActiveOf(s.deliveries, o) == {}
  {
  }

  /** The order has one active delivery at most, so freeing one agent frees them all. */
  lemma CancelledDelivery(max: int, s: State, o: nat)
    requires Inv(max, s) && o in s.orders
    ensures StatusChanged(s, CancelActive(SetOrder(s, o, OrderStatus.Cancelled), o), o, OrderStatus.Cancelled)
  {
    var active := ActiveOf(s.deliveries, o);
    CancelActiveEffect(s, o);
    forall d | d in active ensures active == {d} { OnlyActive(s.deliveries, o, d); }
  }

  lemma OnlyActive(ds: map<nat, Delivery>, o: nat, d: nat)
    requires ChainsOk(ds) && d in ActiveOf(ds, o)
    ensures ActiveOf(ds, o) == {d} && First(ActiveOf(ds, o)) == Some(d)
  {
    OthersAreSuperseded(ds, d);
  }

  // ---- the agent an assignment finds ------------------------------------------------

  /** The nearest agent that is not busy by the Redis sets; failing that, the nearest
      by the Postgres rows that has no active delivery. */
  ghost predicate Found(s: State, x: Search, a: Agent) {
    || IsFirst(x.near, NotIn(s.busy), a)
    || ((forall i :: 0 <= i < |x.near| ==> x.near[i] in s.busy) && IsFirst(x.rows, Idle(s.deliveries), a))
  }

  ghost predicate IsFirst(agents: seq<Agent>, p: Agent -> bool, a: Agent) {
    exists i :: 0 <= i < |agents| && agents[i] == a && p(a) && forall j :: 0 <= j < i ==> !p(agents[j])
  }

  ghost predicate NobodyFree(s: State, x: Search) {
    && (forall i :: 0 <= i < |x.near| ==> x.near[i] in s.busy)
    && (forall i :: 0 <= i < |x.rows| ==> ActiveBy(s.deliveries, x.rows[i]) != {})
  }

  lemma {:induction false} HeadOfFilter(agents: seq<Agent>, p: Agent -> bool)
    ensures Filter(agents, p) == [] <==> forall i :: 0 <= i < |agents| ==> !p(agents[i])
    ensures Filter(agents, p) != [] ==> IsFirst(agents, p, Filter(agents, p)[0])
  {
    if agents != [] {
      var rest := agents[1..];
      HeadOfFilter(rest, p);
      if p(agents[0]) {
        assert agents[0] == Filter(agents, p)[0];
      } else {
        assert forall i :: 1 <= i < |agents| ==> agents[i] == rest[i - 1];
        if Filter(rest, p) != [] {
          var i :| 0 <= i < |rest| && rest[i] == Filter(rest, p)[0] && p(rest[i]) && forall j :: 0 <= j < i ==> !p(rest[j]);
          assert agents[i + 1] == rest[i];
        }
      }
    }
  }

  lemma CandidateIsNearest(s: State, x: Search)
    ensures match Candidate(s, x) case Some(a) => Found(s, x, a) case None => NobodyFree(s, x)
  {
    HeadOfFilter(x.near, NotIn(s.busy));
    HeadOfFilter(x.rows, Idle(s.deliveries));
    if Free(x.near, s.busy, CANDIDATE_LIMIT) == [] && Candidate(s, x).None? {
      forall i | 0 <= i < |x.rows| ensures ActiveBy(s.deliveries, x.rows[i]) != {} {
        assert !Idle(s.deliveries)(x.rows[i]);
      }
    }
  }

  // ---- assigning a delivery -----------------------------------------------------------

  /** The order's first delivery, given to a, and nothing else but its status and a's
      busy mark. */
  ghost predicate FirstDelivery(s: State, s': State, o: nat, a: Agent, id: nat)
    requires o in s.orders
  {
    && s' == s.(orders := s.orders[o := s.orders[o].(status := OrderStatus.Assigned)],
                deliveries := s.deliveries[id := Delivery(o, a, DeliveryStatus.Assigned, None)],
                busy := s.busy + {a})
    && DeliveriesOf(s'.deliveries, o) == {id} == ActiveOf(s'.deliveries, o)
  }

  /** Only a READY order is assigned, to the agent asked for if that one is idle, else
      to the nearest free one. That a READY order already has a delivery, which the
      code checks for, never happens. */
  ghost predicate AssignOutcome(s: State, s': State, reply: Reply, o: nat, agent: Option<Agent>, x: Search) {
    && (reply.Done? ==>
          && o in s.orders && s.orders[o].status.Ready?
          && exists a :: FirstDelivery(s, s', o, a, x.id) &&
               if agent.Some? then a == agent.value && ActiveBy(s.deliveries, a) == {} else Found(s, x, a))
    && (reply.Refused? ==>
          && s' == s
          && match reply.error
             case OrderNotFound => o !in s.orders
             case OrderNotReady => o in s.orders && !s.orders[o].status.Ready?
             case NoEligibleAgents =>
               if agent.Some? then ActiveBy(s.deliveries, agent.value) != {} else NobodyFree(s, x)
             case _ => false)
  }

  lemma AssignedDelivery(max: int, s: State, o: nat, agent: Option<Agent>, x: Search)
    requires Inv(max, s) && Sees(s, x)
    ensures var r := Assign(s, o, agent, x);
      AssignOutcome(s, r.0, r.1, o, agent, x) && TryAutoAssign(s, o, x) == Assign(s, o, None, x).0
  {
    CandidateIsNearest(s, x);
    if o in s.orders && s.orders[o].status.Ready? {
      ReadyHasNone(max, s, o);
      assert ActiveOf(s.deliveries, o) == {};
      if agent.Some? { NewFirst(s, o, agent.value, x.id); }
      else if Candidate(s, x).Some? { NewFirst(s, o, Candidate(s, x).value, x.id); }
    }
  }

  lemma NewFirst(s: State, o: nat, a: Agent, id: nat)
    requires o in s.orders && NoDelivery(s.deliveries, o)
    ensures FirstDelivery(s, CreateAssignment(s, o, a, None, id), o, a, id)
  {
  }

  // ---- replacing a delivery -------------------------------------------------------------

  function Ended(s: State, d: nat, status: DeliveryStatus): State
    requires d in s.deliveries
  {
    MarkFree(SetDelivery(s, d, status), s.deliveries[d].agent)
  }

  /** Delivery d is over and its agent free; the order has a new delivery that names d
      and no other active one. */
  ghost predicate Followed(s: State, s': State, d: nat, status: DeliveryStatus, x: Search)
    requires d in s.deliveries && s.deliveries[d].order in s.orders
  {
    var o := s.deliveries[d].order;
    && ActiveOf(s'.deliveries, o) == {x.id} && DeliveriesOf(s'.deliveries, o) == DeliveriesOf(s.deliveries, o) + {x.id}
    && exists a :: Found(Ended(s, d, status), x, a) && SuccessorOf(s, s', d, status, a, x.id)
  }

  ghost predicate SuccessorOf(s: State, s': State, d: nat, status: DeliveryStatus, a: Agent, id: nat)
    requires d in s.deliveries && s.deliveries[d].order in s.orders
  {
    var row := s.deliveries[d];
    s' == s.(orders := s.orders[row.order := s.orders[row.order].(status := OrderStatus.Assigned)],
             deliveries := s.deliveries[d := row.(status := status)]
                                       [id := Delivery(row.order, a, DeliveryStatus.Assigned, Some(d))],
             busy := s.busy - {row.agent} + {a})
  }

  /** Delivery d is over and its agent free, and the order is left without. */
  ghost predicate LeftAlone(s: State, s': State, d: nat, status: DeliveryStatus)
    requires d in s.deliveries
  {
    s' == Ended(s, d, status) && ActiveOf(s'.deliveries, s.deliveries[d].order) == {}
  }

  /** d ends; a successor is found or nobody is free. */
  ghost predicate Replaced(s: State, s': State, d: nat, status: DeliveryStatus, x: Search, found: bool)
    requires d in s.deliveries && s.deliveries[d].order in s.orders
  {
    if found then Followed(s, s', d, status, x) else LeftAlone(s, s', d, status) && NobodyFree(Ended(s, d, status), x)
  }

  /** The chain the code counts is all the order's deliveries. */
  lemma ChainIsEveryAttempt(max: int, s: State, d: nat)
    requires Inv(max, s) && d in s.deliveries && Active(s.deliveries[d].status)
    ensures s.deliveries[d].order in s.orders
    ensures ChainLength(s.deliveries, d) == |DeliveriesOf(s.deliveries, s.deliveries[d].order)|
  {
    CurrentIsNewest(s.deliveries, d);
    NewestCounts(s.deliveries, s.deliveries[d].order, d);
  }

  lemma NothingLeftActive(ds: map<nat, Delivery>, d: nat, status: DeliveryStatus)
    requires ChainsOk(ds) && d in ds && Active(ds[d].status) && !Active(status)
    ensures ActiveOf(ds[d := ds[d].(status := status)], ds[d].order) == {}
  {
    OthersAreSuperseded(ds, d);
  }

  lemma ReplacedDelivery(max: int, s: State, d: nat, status: DeliveryStatus, x: Search)
    requires Inv(max, s) && d in s.deliveries && Active(s.deliveries[d].status) && Superseded(status)
    requires forall e :: e in s.deliveries ==> e < x.id
    requires s.deliveries[d].order in s.orders
    ensures var r := TryAssign(Ended(s, d, status), s.deliveries[d].order, Some(d), x);
      Replaced(s, r.0, d, status, x, r.1)
  {
    var ended := Ended(s, d, status);
    NothingLeftActive(s.deliveries, d, status);
    CandidateIsNearest(ended, x);
    if Candidate(ended, x).Some? {
      var a := Candidate(ended, x).value;
      assert SuccessorOf(s, CreateAssignment(ended, s.deliveries[d].order, a, Some(d), x.id), d, status, a, x.id);
      NewActive(ended.deliveries, s.deliveries[d].order, a, Some(d), x.id);
    }
  }

  lemma NewActive(ds: map<nat, Delivery>, o: nat, a: Agent, from: Option<nat>, id: nat)
    requires id !in ds && ActiveOf(ds, o) == {}
    ensures var ds' := ds[id := Delivery(o, a, DeliveryStatus.Assigned, from)];
      ActiveOf(ds', o) == {id} && DeliveriesOf(ds', o) == DeliveriesOf(ds, o) + {id}
  {
    var ds' := ds[id := Delivery(o, a, DeliveryStatus.Assigned, from)];
    forall d | d in ds && ds[d].order == o ensures !Active(ds'[d].status) { assert d !in ActiveOf(ds, o); }
  }

  /** Refused for good once the order has had as many deliveries as allowed; when
      nobody is free the old delivery is over all the same. */
  ghost predicate ReassignOutcome(max: int, s: State, s': State, reply: Reply, o: nat, x: Search) {
    && (ActiveOf(s.deliveries, o) == {} ==> s' == s && reply == Refused(if o in s.orders then NoActiveDelivery else OrderNotFound))
    && forall d :: d in ActiveOf(s.deliveries, o) && o in s.orders ==>
         if |DeliveriesOf(s.deliveries, o)| >= max then s' == s && reply == Refused(MaxReassignmentAttemptsReached)
         else Replaced(s, s', d, Reassigned, x, reply.Done?) && (reply.Refused? ==> reply.error.NoEligibleAgents?)
  }

  lemma ReassignedDelivery(max: int, s: State, o: nat, x: Search)
    requires Inv(max, s) && (forall d :: d in s.deliveries ==> d < x.id)
    ensures var r := Reassign(s, max, o, x); ReassignOutcome(max, s, r.0, r.1, o, x)
  {
    if o in s.orders {
      forall d | d in ActiveOf(s.deliveries, o)
        ensures var r := Reassign(s, max, o, x);
          if |DeliveriesOf(s.deliveries, o)| >= max then r == (s, Refused(MaxReassignmentAttemptsReached))
          else Replaced(s, r.0, d, Reassigned, x, r.1.Done?) && (r.1.Refused? ==> r.1.error.NoEligibleAgents?)
      {
        OnlyActive(s.deliveries, o, d);
        ChainIsEveryAttempt(max, s, d);
        ReplacedDelivery(max, s, d, Reassigned, x);
      }
    } else {
      assert forall d :: d in s.deliveries ==> s.deliveries[d].order != o;
      assert ActiveOf(s.deliveries, o) == {};
    }
  }

  // ---- an agent reports on a delivery ---------------------------------------------------

  ghost predicate Progressed(max: int, s: State, s': State, d: nat, target: DeliveryStatus, x: Search)
    requires d in s.deliveries && s.deliveries[d].order in s.orders
  {
    var o := s.deliveries[d].order;
    match target
    case Picked => s' == SetOrder(SetDelivery(s, d, target), o, OrderStatus.Picked) && ActiveOf(s'.deliveries, o) == {d}
    case Delivered => s' == SetOrder(Ended(s, d, target), o, OrderStatus.Delivered) && ActiveOf(s'.deliveries, o) == {}
    case Rejected =>
      if |DeliveriesOf(s.deliveries, o)| >= max then LeftAlone(s, s', d, target)
      else exists found :: Replaced(s, s', d, target, x, found)
    case _ => s' == SetDelivery(s, d, target) && ActiveOf(s'.deliveries, o) == {d}
  }

  /** ASSIGNED to ACCEPTED or REJECTED, ACCEPTED to PICKED, PICKED to DELIVERED. */
  predicate AgentStep(from: DeliveryStatus, to: DeliveryStatus) {
    || (from.Assigned? && (to.Accepted? || to.Rejected?))
    || (from.Accepted? && to.Picked?)
    || (from.Picked? && to.Delivered?)
  }

  predicate DeliveryRefusal(s: State, d: nat, agent: Agent, e: Error) {
    if d !in s.deliveries then e.DeliveryNotFound?
    else if s.deliveries[d].agent != agent then e.UnAuthorized?
    else e.InvalidTransition?
  }

  /** Only the delivery's agent moves it, one step at a time; its order moves with it,
      and a rejection looks for a successor. */
  ghost predicate DeliveryOutcome(max: int, s: State, s': State, reply: Reply, d: nat, agent: Agent,
                                  target: DeliveryStatus, x: Search)
  {
    && (reply.Refused? ==> s' == s && DeliveryRefusal(s, d, agent, reply.error))
    && (reply.Done? <==> d in s.deliveries && s.deliveries[d].agent == agent && AgentStep(s.deliveries[d].status, target))
    && (reply.Done? ==> s.deliveries[d].order in s.orders && Progressed(max, s, s', d, target, x))
  }

  lemma UpdatedDelivery(max: int, s: State, d: nat, agent: Agent, target: DeliveryStatus, x: Search)
    requires Inv(max, s) && Sees(s, x)
    ensures var r := UpdateDelivery(s, max, d, agent, target, x);
      DeliveryOutcome(max, s, r.0, r.1, d, agent, target, x)
  {
    var r := UpdateDelivery(s, max, d, agent, target, x);
    if r.1.Done? {
      var o := s.deliveries[d].order;
      OnlyActive(s.deliveries, o, d);
      ChainIsEveryAttempt(max, s, d);
      if !Active(target) { NothingLeftActive(s.deliveries, d, target); }
      if target.Rejected? { ReplacedDelivery(max, s, d, target, x); }
      if Active(target) { StaysOnlyActive(s.deliveries, d, target); }
    }
  }

  lemma StaysOnlyActive(ds: map<nat, Delivery>, d: nat, target: DeliveryStatus)
    requires d in ds && ActiveOf(ds, ds[d].order) == {d} && Active(target)
    ensures ActiveOf(ds[d := ds[d].(status := target)], ds[d].order) == {d}
  {
    var ds' := ds[d := ds[d].(status := target)];
    forall e | e in ds' && e != d && ds'[e].order == ds[d].order ensures !Active(ds'[e].status) {
      assert e !in ActiveOf(ds, ds[d].order);
    }
  }

  // ---- payments ---------------------------------------------------------------------------

  /** The caller's order awaits payment and ends up with exactly one open session, for
      its total; one that was open already is reused. */
  ghost predicate PaymentOutcome(s: State, s': State, reply: Reply, o: nat, mine: bool, id: nat) {
    && (reply.Refused? ==> s' == s && reply.error == if o in s.orders && mine then OrderNotPendingPayment else OrderNotFound)
    && (reply.Done? <==> o in s.orders && mine && s.orders[o].status.PendingPayment?)
    && (reply.Done? ==>
          && s' == s.(sessions := s'.sessions)
          && (if OpenSessions(s.sessions, o) != {} then s' == s
              else OpenSessions(s'.sessions, o) == {id} && s'.sessions - {id} == s.sessions && s'.sessions[id].status.Initialized?)
          && exists k :: OpenSessions(s'.sessions, o) == {k} && s'.sessions[k].amount == s.orders[o].total)
  }

  lemma OnlyOpen(s: State, o: nat, k: nat)
    requires SessionsOk(s) && k in OpenSessions(s.sessions, o)
    ensures OpenSessions(s.sessions, o) == {k} && FindOpenSession(s.sessions, o) == Some(k)
    ensures o in s.orders && s.sessions[k].amount == s.orders[o].total && s.orders[o].placed == 0
    ensures s.orders[o].status.PendingPayment? || s.orders[o].status.Cancelled?
  {
    assert SessionOk(s, k);
    forall j | j in OpenSessions(s.sessions, o) ensures j == k { assert j != k ==> OneOpen(s.sessions, j, k); }
  }

  lemma StartedPayment(max: int, s: State, o: nat, mine: bool, id: nat)
    requires Inv(max, s) && id !in s.sessions
    ensures var r := InitPayment(s, o, mine, id); PaymentOutcome(s, r.0, r.1, o, mine, id)
  {
    var s' := InitPayment(s, o, mine, id).0;
    if k :| k in OpenSessions(s.sessions, o) {
      OnlyOpen(s, o, k);
    } else if o in s.orders {
      var sessions' := s.sessions[id := Session(o, s.orders[o].total, Initialized)];
      forall k | k in s.sessions ensures k !in OpenSessions(sessions', o) { assert k !in OpenSessions(s.sessions, o); }
      assert OpenSessions(sessions', o) == {id};
    }
  }

  /** The webhook reports on an open payment for the first time. */
  predicate Reports(s: State, o: nat, txn: string, event: string, status: string) {
    && o in s.orders && OpenSessions(s.sessions, o) != {} && txn + ":" + event + ":" + status !in s.recorded
    && event == "pay" && txn !in s.charges
  }

  /** It reports on an open payment, but its charge is in the books already. */
  predicate Repeats(s: State, o: nat, txn: string, event: string, status: string) {
    && o in s.orders && OpenSessions(s.sessions, o) != {} && txn + ":" + event + ":" + status !in s.recorded
    && event == "pay" && txn in s.charges
  }

  /** The session is closed with a charge row for the order's total; a success, never
      the second one, places the order and announces it. */
  ghost predicate Settled(s: State, s': State, o: nat, txn: string, success: bool)
    requires o in s.orders
  {
    && s.orders[o].placed == 0 && !Paid(s.charges, o)
    && s'.charges == s.charges[txn := Charge(o, s.orders[o].total, success)]
    && s'.orders == (if success then s.orders[o := s.orders[o].(status := Placed, placed := 1)] else s.orders)
    && OpenSessions(s'.sessions, o) == {}
    && s'.sessions.Keys == s.sessions.Keys
    && (forall k :: k in OpenSessions(s.sessions, o) ==>
          s'.sessions[k] == s.sessions[k].(status := if success then SessionStatus.Captured else Failed))
    && forall k :: k in s.sessions && k !in OpenSessions(s.sessions, o) ==> s'.sessions[k] == s.sessions[k]
  }

  /** A webhook settles an open payment or only leaves its event recorded; a reply
      other than the acknowledgement means that nothing was kept of the call. */
  ghost predicate WebhookOutcome(s: State, s': State, reply: Reply, o: nat, txn: string, event: string, status: string) {
    && (reply.Refused? <==> Repeats(s, o, txn, event, status))
    && (reply.Refused? ==> s' == s && reply.error.DuplicateTransaction?)
    && (o !in s.orders ==> s' == s)
    && (reply.Done? && o in s.orders ==> s'.recorded == s.recorded + {txn + ":" + event + ":" + status})
    && (if Reports(s, o, txn, event, status) then reply.Done? && Settled(s, s', o, txn, status == "SUCCESS")
        else s' == s.(recorded := s'.recorded))
    && s' == s.(orders := s'.orders, sessions := s'.sessions, charges := s'.charges, recorded := s'.recorded)
  }

  lemma NotifiedPayment(max: int, s: State, o: nat, txn: string, event: string, status: string)
    requires Inv(max, s)
    ensures var r := Webhook(s, o, txn, event, status); WebhookOutcome(s, r.0, r.1, o, txn, event, status)
  {
    if k :| k in OpenSessions(s.sessions, o) {
      OnlyOpen(s, o, k);
      if o in s.orders {
        assert OrderOk(s.charges, o, s.orders[o]);
        ClosedSession(s.sessions, o, k, SessionStatus.Captured);
        ClosedSession(s.sessions, o, k, Failed);
      }
    }
  }

  lemma ClosedSession(sessions: map<nat, Session>, o: nat, k: nat, status: SessionStatus)
    requires OpenSessions(sessions, o) == {k} && !Open(status)
    ensures OpenSessions(sessions[k := sessions[k].(status := status)], o) == {}
  {
    var sessions' := sessions[k := sessions[k].(status := status)];
    forall j | j in sessions && j != k ensures j !in OpenSessions(sessions', o) { assert j !in OpenSessions(sessions, o); }
  }

  // ---- logging out ------------------------------------------------------------------------

  /** Refused only while carrying an order; afterwards the agent is in none of the
      presence sets, and an order it was to fetch has been reassigned if allowed. */
  ghost predicate LogOutOutcome(max: int, s: State, s': State, reply: Reply, a: Agent, x: Search) {
    && (reply.Refused? ==>
          && s' == s && reply.error.AgentInActiveDelivery?
          && exists d :: d in ActiveBy(s.deliveries, a) && s.deliveries[d].status.Picked?)
    && (reply.Done? ==>
          && a !in s'.online && a !in s'.geo && a !in s'.busy
          && (ActiveBy(s.deliveries, a) == {} ==> s' == GoneOffline(s, a))
          && (ActiveBy(s.deliveries, a) != {} ==>
                exists d, r :: d in ActiveBy(s.deliveries, a) && !s.deliveries[d].status.Picked?
                  && ReassignOutcome(max, GoneOffline(s, a), s', r, s.deliveries[d].order, x)))
  }

  lemma NotFoundAgain(s: State, a: Agent, x: Search, b: Agent)
    requires Sees(GoneOffline(s, a), x) && (b in x.near || b in x.rows)
    ensures b != a
  {
  }

  lemma CandidateIsListed(s: State, x: Search)
    requires Candidate(s, x).Some?
    ensures Candidate(s, x).value in x.near || Candidate(s, x).value in x.rows
  {
    CandidateIsNearest(s, x);
  }

  lemma StaysFree(max: int, s: State, o: nat, a: Agent, x: Search)
    requires Sees(GoneOffline(s, a), x)
    ensures var s' := Reassign(GoneOffline(s, a), max, o, x).0; a !in s'.busy && a !in s'.online && a !in s'.geo
  {
    var gone := GoneOffline(s, a);
    var active := First(ActiveOf(gone.deliveries, o));
    if o in gone.orders && active.Some? {
      var ended := Ended(gone, active.value, Reassigned);
      if Candidate(ended, x).Some? {
        CandidateIsListed(ended, x);
        NotFoundAgain(s, a, x, Candidate(ended, x).value);
      }
    }
  }

  lemma LoggedOut(max: int, s: State, a: Agent, x: Search)
    requires Inv(max, s) && Sees(GoneOffline(s, a), x)
    ensures var r := GoOffline(s, max, a, x); LogOutOutcome(max, s, r.0, r.1, a, x)
  {
    var active := First(ActiveBy(s.deliveries, a));
    if active.Some? {
      var gone := GoneOffline(s, a);
      PresenceIsSeparate(max, s, gone.online, gone.geo, gone.busy);
      ReassignedDelivery(max, gone, s.deliveries[active.value].order, x);
      StaysFree(max, s, s.deliveries[active.value].order, a, x);
    }
  }

  // ---- logging in, staying in ---------------------------------------------------------------

  /** The agent is online, visible and, whatever it was doing, not busy. */
  ghost predicate LogInOutcome(s: State, s': State, a: Agent) {
    && s' == s.(online := s'.online, geo := s'.geo, busy := s'.busy)
    && a in s'.online && a in s'.geo && a !in s'.busy
    && forall b :: b != a ==>
         (b in s'.online <==> b in s.online) && (b in s'.geo <==> b in s.geo) && (b in s'.busy <==> b in s.busy)
  }

  /** Only an online agent is made visible, and nothing else changes. */
  ghost predicate PingOutcome(s: State, s': State, reply: Reply, a: Agent) {
    && (reply.Done? <==> a in s.online)
    && (reply.Refused? ==> s' == s && reply.error.NotOnline?)
    && (reply.Done? ==> s' == s.(geo := s'.geo) && a in s'.geo && forall b :: b != a ==> (b in s'.geo <==> b in s.geo))
  }

  lemma LoggedIn(s: State, a: Agent)
    ensures LogInOutcome(s, GoOnline(s, a), a)
    ensures PingOutcome(s, Ping(s, a).0, Ping(s, a).1, a)
  {
  }
}
