/** Orders, deliveries, payment sessions and agent presence of one region: what each
    call of the order, delivery, payment and presence services does to the tables,
    as one atomic step. */
module FulfilmentModel {
  import opened Prelude
  import opened Sorting
  import opened Presence

  datatype OrderStatus =
    | PendingPayment | Placed | Accepted | Rejected | Preparing | Ready
    | Assigned | Picked | Delivered | Cancelled

  datatype DeliveryStatus = Assigned | Accepted | Rejected | Picked | Delivered | Cancelled | Reassigned

  datatype SessionStatus = Initialized | Pending | Authorized | Captured | Failed | Expired | Cancelled

  /** placed: how many order.placed events the order has put in the outbox. */
  datatype Order = Order(status: OrderStatus, online: bool, total: int, createdAt: int, placed: nat)

  datatype Delivery = Delivery(order: nat, agent: Agent, status: DeliveryStatus, from: Option<nat>)

  datatype Session = Session(order: nat, amount: int, status: SessionStatus)

  /** A transactions row of type charge. */
  datatype Charge = Charge(order: nat, amount: int, succeeded: bool)

  /** charges:  by the provider's transaction id, which is their unique key
      recorded: payment_webhook_events, by provider event id
      online:   agent_presence rows with is_online; geo, busy: the Redis sets */
  datatype State = State(orders: map<nat, Order>, deliveries: map<nat, Delivery>, sessions: map<nat, Session>,
                         charges: map<string, Charge>, recorded: set<string>,
                         online: set<Agent>, geo: set<Agent>, busy: set<Agent>)

  datatype Error =
    | OrderNotFound | OrderNotReady | OrderAlreadyHasActiveDelivery | NoEligibleAgents
    | NoActiveDelivery | MaxReassignmentAttemptsReached | DeliveryNotFound | UnAuthorized
    | InvalidTransition | CancellationWindowExpired | OutOfStock | OrderNotPendingPayment
    | DuplicateTransaction | AgentInActiveDelivery | NotOnline

  datatype Reply = Done | Refused(error: Error)

  // ---- reads and single-row writes --------------------------------------------

  predicate Active(st: DeliveryStatus) { st.Assigned? || st.Accepted? || st.Picked? }

  /** Replaced by a later delivery, or about to be. */
  predicate Superseded(st: DeliveryStatus) { st.Rejected? || st.Reassigned? }

  predicate Open(st: SessionStatus) { st.Initialized? || st.Pending? }

  function ActiveOf(deliveries: map<nat, Delivery>, o: nat): set<nat> {
    set d | d in deliveries && deliveries[d].order == o && Active(deliveries[d].status)
  }

  function ActiveBy(deliveries: map<nat, Delivery>, a: Agent): set<nat> {
    set d | d in deliveries && deliveries[d].agent == a && Active(deliveries[d].status)
  }

  function First(ids: set<nat>): (r: Option<nat>)
    ensures r.Some? ==> r.value in ids
    ensures r.None? ==> ids == {}
  {
    if ids == {} then None else Some(Least(ids))
  }

  function OpenSessions(sessions: map<nat, Session>, o: nat): set<nat> {
    set k | k in sessions && sessions[k].order == o && Open(sessions[k].status)
  }

  /** The newest open session. */
  function FindOpenSession(sessions: map<nat, Session>, o: nat): (r: Option<nat>)
    ensures r.Some? ==> r.value in OpenSessions(sessions, o)
    ensures r.None? ==> OpenSessions(sessions, o) == {}
  {
    var ids := OpenSessions(sessions, o);
    if ids == {} then None else Some(Greatest(ids))
  }

  function SetOrder(s: State, o: nat, status: OrderStatus): State
    requires o in s.orders
  {
    s.(orders := s.orders[o := s.orders[o].(status := status)])
  }

  function SetDelivery(s: State, d: nat, status: DeliveryStatus): State
    requires d in s.deliveries
  {
    s.(deliveries := s.deliveries[d := s.deliveries[d].(status := status)])
  }

  function MarkFree(s: State, a: Agent): State {
    s.(busy := s.busy - {a})
  }

  /** reassigned_from always holds a lower id (proved below), so the walk ends. */
  function ChainLength(deliveries: map<nat, Delivery>, d: nat): nat {
    if d in deliveries && deliveries[d].from.Some? && deliveries[d].from.value < d
    then 1 + ChainLength(deliveries, deliveries[d].from.value)
    else 1
  }

  // ---- the order status table --------------------------------------------------

  datatype OrderActor = Customer | Restaurant | System | Agent | Admin

  datatype Rule = Rule(to: OrderStatus, actors: set<OrderActor>)

  function Transitions(from: OrderStatus): seq<Rule> {
    match from
    case PendingPayment => [Rule(OrderStatus.Cancelled, {Customer, System})]
    case Placed => [Rule(OrderStatus.Accepted, {Restaurant, Admin}), Rule(OrderStatus.Rejected, {Restaurant, Admin}),
                    Rule(OrderStatus.Cancelled, {Customer})]
    case Accepted => [Rule(Preparing, {Restaurant, Admin}), Rule(OrderStatus.Cancelled, {Restaurant, Admin})]
    case Preparing => [Rule(Ready, {Restaurant, Admin}), Rule(OrderStatus.Cancelled, {Restaurant, Admin})]
    case Ready => [Rule(OrderStatus.Assigned, {System}), Rule(OrderStatus.Cancelled, {Restaurant, Admin})]
    case Assigned => [Rule(OrderStatus.Picked, {Agent}), Rule(OrderStatus.Cancelled, {Admin})]
    case Picked => [Rule(OrderStatus.Delivered, {Agent})]
    case _ => []
  }

  /** assertTransition. */
  predicate MayMove(from: OrderStatus, to: OrderStatus, actor: OrderActor) {
    var rules := Transitions(from);
    exists i :: 0 <= i < |rules| && rules[i].to == to && actor in rules[i].actors
  }

  /** Some actor's edge of the table. */
  ghost predicate Edge(from: OrderStatus, to: OrderStatus) {
    exists actor :: MayMove(from, to, actor)
  }

  datatype Role = SystemAdmin | CustomerRole | RestaurantUser | AgentRole

  /** mine:      the order is the actor's own, or of a branch the actor works in
      permitted: a restaurant user has the permission the target status asks for */
  datatype RequestActor = RequestActor(role: Role, mine: bool, permitted: bool)

  function ResolveActor(actor: RequestActor): Result<OrderActor, Error> {
    match actor.role
    case SystemAdmin => Ok(Admin)
    case CustomerRole => if actor.mine then Ok(Customer) else Err(UnAuthorized)
    case RestaurantUser => if actor.mine && actor.permitted then Ok(Restaurant) else Err(UnAuthorized)
    case AgentRole => Err(UnAuthorized)
  }

  // ---- order.service.ts --------------------------------------------------------

  const CANCELLATION_WINDOW_MS := 60 * 1000

  /** reserved: whether reserving the stock, after the commit, succeeds. */
  function PlaceOrder(s: State, o: nat, online: bool, total: int, now: int, reserved: bool): (State, Reply) {
    var order := if online then Order(PendingPayment, true, total, now, 0) else Order(Placed, false, total, now, 1);
    var placed := s.(orders := s.orders[o := order]);
    if reserved then (placed, Done) else (SetOrder(placed, o, OrderStatus.Cancelled), Refused(OutOfStock))
  }

  predicate WithinWindow(order: Order, now: int) {
    order.status.PendingPayment? || (order.status.Placed? && now - order.createdAt <= CANCELLATION_WINDOW_MS)
  }

  /** cancelActiveDeliveryForOrder, then markAgentFree. */
  function CancelActive(s: State, o: nat): State {
    var active := ActiveOf(s.deliveries, o);
    var freed := First(active);
    var deliveries := map d | d in s.deliveries ::
      if d in active then s.deliveries[d].(status := DeliveryStatus.Cancelled) else s.deliveries[d];
    if freed.Some? then MarkFree(s.(deliveries := deliveries), s.deliveries[freed.value].agent)
    else s.(deliveries := deliveries)
  }

  function UpdateStatus(s: State, o: nat, target: OrderStatus, actor: RequestActor, now: int): (State, Reply) {
    if o !in s.orders then (s, Refused(OrderNotFound))
    else
      var order := s.orders[o];
      var resolved := ResolveActor(actor);
      if resolved.Err? then (s, Refused(resolved.error))
      else if !MayMove(order.status, target, resolved.value) then (s, Refused(InvalidTransition))
      else if target.Cancelled? && resolved.value.Customer? && !WithinWindow(order, now) then
        (s, Refused(CancellationWindowExpired))
      else if target.Cancelled? && order.status.Assigned? then (CancelActive(SetOrder(s, o, target), o), Done)
      else (SetOrder(s, o, target), Done)
  }

  // ---- assignment.service.ts -----------------------------------------------------

  const CANDIDATE_LIMIT: nat := 5

  /** What one assignment attempt meets outside the tables of the model.
      near: the geo set around the branch, nearest first ([] when Redis fails)
      rows: online agents around the branch by agent_presence, nearest first
      id:   the id the next delivery row gets */
  datatype Search = Search(near: seq<Agent>, rows: seq<Agent>, id: nat)

  ghost predicate Sees(s: State, x: Search) {
    && Distinct(x.near)
    && (forall i :: 0 <= i < |x.near| ==> x.near[i] in s.geo)
    && (forall i :: 0 <= i < |x.rows| ==> x.rows[i] in s.online)
    && (forall d :: d in s.deliveries ==> d < x.id)
  }

  function Idle(deliveries: map<nat, Delivery>): Agent -> bool {
    (a: Agent) => ActiveBy(deliveries, a) == {}
  }

  function Candidate(s: State, x: Search): Option<Agent> {
    var scanned := Free(x.near, s.busy, CANDIDATE_LIMIT);
    if scanned != [] then Some(scanned[0])
    else
      var fallback := Take(Filter(x.rows, Idle(s.deliveries)), CANDIDATE_LIMIT);
      if fallback != [] then Some(fallback[0]) else None
  }

  function CreateAssignment(s: State, o: nat, a: Agent, from: Option<nat>, id: nat): State
    requires o in s.orders
  {
    SetOrder(s.(deliveries := s.deliveries[id := Delivery(o, a, DeliveryStatus.Assigned, from)],
                busy := s.busy + {a}), o, OrderStatus.Assigned)
  }

  function TryAssign(s: State, o: nat, from: Option<nat>, x: Search): (State, bool)
    requires o in s.orders
  {
    var c := Candidate(s, x);
    if c.Some? then (CreateAssignment(s, o, c.value, from, x.id), true) else (s, false)
  }

  // ---- delivery.service.ts -------------------------------------------------------

  function Assign(s: State, o: nat, agent: Option<Agent>, x: Search): (State, Reply) {
    if o !in s.orders then (s, Refused(OrderNotFound))
    else if !s.orders[o].status.Ready? then (s, Refused(OrderNotReady))
    else if First(ActiveOf(s.deliveries, o)).Some? then (s, Refused(OrderAlreadyHasActiveDelivery))
    else
      match agent
      case Some(a) =>
        if ActiveBy(s.deliveries, a) != {} then (s, Refused(NoEligibleAgents))
        else (CreateAssignment(s, o, a, None, x.id), Done)
      case None =>
        var r := TryAssign(s, o, None, x);
        (r.0, if r.1 then Done else Refused(NoEligibleAgents))
  }

  /** Never fails: without a candidate the order stays READY. */
  function TryAutoAssign(s: State, o: nat, x: Search): State {
    if o in s.orders && s.orders[o].status.Ready? && First(ActiveOf(s.deliveries, o)).None?
    then TryAssign(s, o, None, x).0 else s
  }

  function Reassign(s: State, max: int, o: nat, x: Search): (State, Reply) {
    if o !in s.orders then (s, Refused(OrderNotFound))
    else
      var active := First(ActiveOf(s.deliveries, o));
      if active.None? then (s, Refused(NoActiveDelivery))
      else if ChainLength(s.deliveries, active.value) >= max then (s, Refused(MaxReassignmentAttemptsReached))
      else
        var freed := MarkFree(SetDelivery(s, active.value, Reassigned), s.deliveries[active.value].agent);
        var r := TryAssign(freed, o, active, x);
        (r.0, if r.1 then Done else Refused(NoEligibleAgents))
  }

  predicate MayDeliver(from: DeliveryStatus, to: DeliveryStatus) {
    match from
    case Assigned => to.Accepted? || to.Rejected?
    case Accepted => to.Picked?
    case Picked => to.Delivered?
    case _ => false
  }

  function UpdateDelivery(s: State, max: int, d: nat, agent: Agent, target: DeliveryStatus, x: Search): (State, Reply) {
    if d !in s.deliveries || s.deliveries[d].order !in s.orders then (s, Refused(DeliveryNotFound))
    else
      var row := s.deliveries[d];
      if row.agent != agent then (s, Refused(UnAuthorized))
      else if !MayDeliver(row.status, target) then (s, Refused(InvalidTransition))
      else
        var moved := SetDelivery(s, d, target);
        match target
        case Picked => (SetOrder(moved, row.order, OrderStatus.Picked), Done)
        case Delivered => (MarkFree(SetOrder(moved, row.order, OrderStatus.Delivered), agent), Done)
        case Rejected =>
          var freed := MarkFree(moved, agent);
          if ChainLength(s.deliveries, d) >= max then (freed, Done)
          else (TryAssign(freed, row.order, Some(d), x).0, Done)
        case _ => (moved, Done)
  }

  // ---- payment.service.ts and kashier-webhook.service.ts ----------------------------

  function InitPayment(s: State, o: nat, mine: bool, id: nat): (State, Reply) {
    if o !in s.orders || !mine then (s, Refused(OrderNotFound))
    else if !s.orders[o].status.PendingPayment? then (s, Refused(OrderNotPendingPayment))
    else if FindOpenSession(s.sessions, o).Some? then (s, Done)
    else (s.(sessions := s.sessions[id := Session(o, s.orders[o].total, Initialized)]), Done)
  }

  function EventId(txn: string, event: string, status: string): string {
    txn + ":" + event + ":" + status
  }

  /** handlePayEvent, on an order with an open session and a new transaction id. */
  function PaymentCaptured(s: State, o: nat, k: nat, txn: string): State
    requires o in s.orders && k in s.sessions
  {
    s.(sessions := s.sessions[k := s.sessions[k].(status := SessionStatus.Captured)],
       charges := s.charges[txn := Charge(o, s.sessions[k].amount, true)],
       orders := s.orders[o := s.orders[o].(status := Placed, placed := s.orders[o].placed + 1)])
  }

  function PaymentFailed(s: State, o: nat, k: nat, txn: string): State
    requires k in s.sessions
  {
    s.(sessions := s.sessions[k := s.sessions[k].(status := Failed)],
       charges := s.charges[txn := Charge(o, s.sessions[k].amount, false)])
  }

  /** A verified webhook call. A refund event only touches refund rows; a repeated
      charge key fails its insert and rolls everything back, the event row too. */
  function Webhook(s: State, o: nat, txn: string, event: string, status: string): (State, Reply) {
    if o !in s.orders then (s, Done)
    else if EventId(txn, event, status) in s.recorded then (s, Done)
    else
      var seen := s.(recorded := s.recorded + {EventId(txn, event, status)});
      var session := FindOpenSession(s.sessions, o);
      if event != "pay" || session.None? then (seen, Done)
      else if txn in s.charges then (s, Refused(DuplicateTransaction))
      else if status == "SUCCESS" then (PaymentCaptured(seen, o, session.value, txn), Done)
      else (PaymentFailed(seen, o, session.value, txn), Done)
  }

  // ---- presence.service.ts ---------------------------------------------------------

  function GoOnline(s: State, a: Agent): State {
    s.(online := s.online + {a}, geo := s.geo + {a}, busy := s.busy - {a})
  }

  function GoneOffline(s: State, a: Agent): State {
    s.(online := s.online - {a}, geo := s.geo - {a}, busy := s.busy - {a})
  }

  function GoOffline(s: State, max: int, a: Agent, x: Search): (State, Reply) {
    var active := First(ActiveBy(s.deliveries, a));
    if active.Some? && s.deliveries[active.value].status.Picked? then (s, Refused(AgentInActiveDelivery))
    else if active.None? then (GoneOffline(s, a), Done)
    else (Reassign(GoneOffline(s, a), max, s.deliveries[active.value].order, x).0, Done)
  }

  function Ping(s: State, a: Agent): (State, Reply) {
    if a !in s.online then (s, Refused(NotOnline)) else (s.(geo := s.geo + {a}), Done)
  }

  // ---- the state machine -------------------------------------------------------------

  datatype Action =
    | Place(o: nat, online: bool, total: int, now: int, reserved: bool)
    | Move(o: nat, target: OrderStatus, actor: RequestActor, now: int)
    | AssignOrder(o: nat, chosen: Option<Agent>, x: Search)
    | AutoAssign(o: nat, x: Search)
    | ReassignOrder(o: nat, x: Search)
    | MoveDelivery(d: nat, agent: Agent, deliveryTarget: DeliveryStatus, x: Search)
    | Init(o: nat, mine: bool, id: nat)
    | Notify(o: nat, txn: string, event: string, status: string)
    | LogIn(agent: Agent)
    | LogOut(agent: Agent, x: Search)
    | Beat(agent: Agent)

  /** Ids come from sequences, and a candidate scan sees the presence sets of its
      own moment. Nothing else is asked of a call. */
  ghost predicate Enabled(s: State, a: Action) {
    match a
    case Place(o, _, _, _, _) => o !in s.orders
    case Init(_, _, id) => id !in s.sessions
    case AssignOrder(_, _, x) => Sees(s, x)
    case AutoAssign(_, x) => Sees(s, x)
    case ReassignOrder(_, x) => Sees(s, x)
    case MoveDelivery(_, _, _, x) => Sees(s, x)
    case LogOut(a, x) => Sees(GoneOffline(s, a), x)
    case _ => true
  }

  function Applied(max: int, s: State, a: Action): State {
    match a
    case Place(o, online, total, now, reserved) => PlaceOrder(s, o, online, total, now, reserved).0
    case Move(o, target, actor, now) => UpdateStatus(s, o, target, actor, now).0
    case AssignOrder(o, agent, x) => Assign(s, o, agent, x).0
    case AutoAssign(o, x) => TryAutoAssign(s, o, x)
    case ReassignOrder(o, x) => Reassign(s, max, o, x).0
    case MoveDelivery(d, agent, target, x) => UpdateDelivery(s, max, d, agent, target, x).0
    case Init(o, mine, id) => InitPayment(s, o, mine, id).0
    case Notify(o, txn, event, status) => Webhook(s, o, txn, event, status).0
    case LogIn(a) => GoOnline(s, a)
    case LogOut(a, x) => GoOffline(s, max, a, x).0
    case Beat(a) => Ping(s, a).0
  }

  const NOTHING := State(map[], map[], map[], map[], {}, {}, {}, {})

  /** A run of the region from empty tables; max is maxReassignmentAttempts. */
  ghost predicate IsRun(max: int, trace: seq<State>, actions: seq<Action>) {
    && |trace| == |actions| + 1
    && trace[0] == NOTHING
    && forall n {:trigger actions[n]} | 0 <= n < |actions| :: Enabled(trace[n], actions[n]) && trace[n + 1] == Applied(max, trace[n], actions[n])
  }
}
