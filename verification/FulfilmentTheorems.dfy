/** What holds over every run of the order, delivery and payment services. */
module FulfilmentTheorems {
  import opened Prelude
  import opened Presence
  import opened FulfilmentModel
  import opened FulfilmentInvariant

  /** How state n came about. */
  lemma StepOf(max: int, trace: seq<State>, actions: seq<Action>, n: nat)
    requires IsRun(max, trace, actions) && 0 < n < |trace|
    ensures |trace| == |actions| + 1 && Enabled(trace[n - 1], actions[n - 1])
    ensures trace[n] == Applied(max, trace[n - 1], actions[n - 1])
  {
    var m := n - 1;
    assert trace[m + 1] == Applied(max, trace[m], actions[m]);
  }

  lemma {:induction false} Reached(max: int, trace: seq<State>, actions: seq<Action>, n: nat)
    requires IsRun(max, trace, actions) && n < |trace|
    ensures Inv(max, trace[n])
  {
    hide Enabled, Applied;
    if n > 0 {
      StepOf(max, trace, actions, n);
      Reached(max, trace, actions, n - 1);
      EveryCallKeeps(max, trace[n - 1], actions[n - 1]);
    }
  }

  // ---- orders and deliveries -----------------------------------------------------

  /** In every reachable state an order with an active delivery is PICKED exactly
      when that delivery is, and ASSIGNED otherwise. */
  lemma OrderFollowsItsDelivery(max: int, trace: seq<State>, actions: seq<Action>, n: nat, d: nat)
    requires IsRun(max, trace, actions) && n < |trace|
    requires d in trace[n].deliveries
    requires var st := trace[n].deliveries[d].status; st.Assigned? || st.Accepted? || st.Picked?
    ensures var row := trace[n].deliveries[d];
      && row.order in trace[n].orders
      && (trace[n].orders[row.order].status.Picked? <==> row.status.Picked?)
      && (trace[n].orders[row.order].status.Assigned? <==> !row.status.Picked?)
  {
    Reached(max, trace, actions, n);
  }

  /** An order row after a call is the row before, or only its status changed along
      an edge of the table or back from PICKED by a reassignment, or a capture also
      counted the order.placed event. */
  ghost predicate LegalMove(a: Action, before: Order, after: Order) {
    || after == before
    || MovedTo(before, after)
    || (a.Notify? && (before.status.PendingPayment? || before.status.Cancelled?)
        && after == before.(status := Placed, placed := before.placed + 1))
    || (a.ReassignOrder? && before.status.Picked? && after == before.(status := OrderStatus.Assigned))
  }

  ghost predicate MovedTo(before: Order, after: Order) {
    after == before.(status := after.status) && TableStep(before.status, after.status)
  }

  /** Up the line from PLACED to DELIVERED one step at a time, or out of it: rejected
      when just placed, cancelled until it is picked. */
  predicate TableStep(from: OrderStatus, to: OrderStatus) {
    || (from.Placed? && (to.Accepted? || to.Rejected?))
    || (from.Accepted? && to.Preparing?) || (from.Preparing? && to.Ready?) || (from.Ready? && to.Assigned?)
    || (from.Assigned? && to.Picked?) || (from.Picked? && to.Delivered?)
    || (to.Cancelled? && (from.PendingPayment? || from.Placed? || from.Accepted? || from.Preparing? || from.Ready? || from.Assigned?))
  }

  /** The edges of the table, whoever may take them. */
  lemma EdgesAre(from: OrderStatus, to: OrderStatus)
    ensures Edge(from, to) <==> TableStep(from, to)
  {
    if Edge(from, to) {
      var actor :| MayMove(from, to, actor);
      MoveIs(from, to, actor);
    }
    if TableStep(from, to) {
      var actor: OrderActor := if to.Assigned? then System else if to.Picked? || to.Delivered? then OrderActor.Agent
        else if from.PendingPayment? || (from.Placed? && to.Cancelled?) then Customer else Admin;
      MoveIs(from, to, actor);
    }
  }

  /** Those the system and the agent may take. */
  lemma OwnEdgesAre(from: OrderStatus, to: OrderStatus)
    ensures MayMove(from, to, System) <==> (from.PendingPayment? && to.Cancelled?) || (from.Ready? && to.Assigned?)
    ensures MayMove(from, to, OrderActor.Agent) <==> (from.Assigned? && to.Picked?) || (from.Picked? && to.Delivered?)
  {
    MoveIs(from, to, System);
    MoveIs(from, to, OrderActor.Agent);
  }

  lemma MoveIs(from: OrderStatus, to: OrderStatus, actor: OrderActor)
    ensures var rules := Transitions(from);
      MayMove(from, to, actor) <==>
        || (|rules| > 0 && rules[0].to == to && actor in rules[0].actors)
        || (|rules| > 1 && rules[1].to == to && actor in rules[1].actors)
        || (|rules| > 2 && rules[2].to == to && actor in rules[2].actors)
  {
    assert |Transitions(from)| <= 3;
  }

  lemma TryAssignMoves(s: State, o: nat, from: Option<nat>, x: Search, p: nat)
    requires o in s.orders && p in s.orders
    ensures var s' := TryAssign(s, o, from, x).0;
      p in s'.orders && (s'.orders[p] == s.orders[p] || (p == o && s'.orders[p] == s.orders[p].(status := OrderStatus.Assigned)))
  {
  }

  lemma ReassignMoves(max: int, s: State, o: nat, x: Search, p: nat)
    requires Inv(max, s) && p in s.orders
    ensures var s' := Reassign(s, max, o, x).0;
      && p in s'.orders
      && (s'.orders[p] == s.orders[p]
          || (s'.orders[p] == s.orders[p].(status := OrderStatus.Assigned) && s.orders[p].status.Picked?
              && exists d :: d in s.deliveries && s.deliveries[d].order == p && s.deliveries[d].status.Picked?))
  {
  }

  lemma DeliveryMoves(max: int, s: State, d: nat, agent: Agent, target: DeliveryStatus, x: Search, p: nat)
    requires Inv(max, s) && p in s.orders
    ensures var s' := UpdateDelivery(s, max, d, agent, target, x).0;
      p in s'.orders && (s'.orders[p] == s.orders[p] || MovedTo(s.orders[p], s'.orders[p]))
  {
    var r := UpdateDelivery(s, max, d, agent, target, x);
    if r.1.Done? {
      if target.Rejected? {
        TryAssignMoves(MarkFree(SetDelivery(s, d, target), agent), s.deliveries[d].order, Some(d), x, p);
      }
    }
  }

  /** Another order's call leaves this one alone; its own moves by the table. */
  ghost predicate KeepsOrMoves(s: State, s': State, p: nat)
    requires p in s.orders
  {
    p in s'.orders && (s'.orders[p] == s.orders[p] || MovedTo(s.orders[p], s'.orders[p]))
  }

  lemma UpdateStatusMoves(s: State, o: nat, target: OrderStatus, actor: RequestActor, now: int, p: nat)
    requires p in s.orders
    ensures KeepsOrMoves(s, UpdateStatus(s, o, target, actor, now).0, p)
  {
    if o in s.orders { EdgesAre(s.orders[o].status, target); }
  }

  lemma AssignMoves(s: State, o: nat, agent: Option<Agent>, x: Search, p: nat)
    requires p in s.orders
    ensures KeepsOrMoves(s, Assign(s, o, agent, x).0, p) && KeepsOrMoves(s, TryAutoAssign(s, o, x), p)
  {
    if o in s.orders { TryAssignMoves(s, o, None, x, p); }
  }

  lemma NotifyMoves(max: int, s: State, o: nat, txn: string, event: string, status: string, p: nat)
    requires Inv(max, s) && p in s.orders
    ensures LegalMove(Notify(o, txn, event, status), s.orders[p], Webhook(s, o, txn, event, status).0.orders[p])
  {
  }

  lemma CallMoves(max: int, s: State, a: Action, p: nat)
    requires Inv(max, s) && Enabled(s, a) && p in s.orders
    ensures p in Applied(max, s, a).orders
    ensures LegalMove(a, s.orders[p], Applied(max, s, a).orders[p])
  {
    match a
    case Place(_, _, _, _, _) =>
    case Move(o, target, actor, now) => UpdateStatusMoves(s, o, target, actor, now, p);
    case AssignOrder(o, agent, x) => AssignMoves(s, o, agent, x, p);
    case AutoAssign(o, x) => AssignMoves(s, o, None, x, p);
    case ReassignOrder(o, x) => ReassignMoves(max, s, o, x, p);
    case MoveDelivery(d, agent, target, x) => DeliveryMoves(max, s, d, agent, target, x, p);
    case Init(_, _, _) =>
    case Notify(o, txn, event, status) => NotifyMoves(max, s, o, txn, event, status, p);
    case LogIn(_) =>
    case LogOut(agent, x) => LogOutMoves(max, s, agent, x, p);
    case Beat(_) =>
  }

  /** An agent with a picked delivery cannot log out, so no order goes back. */
  lemma LogOutMoves(max: int, s: State, a: Agent, x: Search, p: nat)
    requires Inv(max, s) && p in s.orders
    ensures var s' := GoOffline(s, max, a, x).0;
      p in s'.orders && s'.orders[p] == s.orders[p]
  {
  }

  /** Every status write of every service, most of which never look at the table, is
      an edge of it, or a capture's PENDING_PAYMENT or CANCELLED to PLACED, or a
      reassignment's PICKED to ASSIGNED; otherwise the order row stays as it was. */
  lemma StatusWritesFollowTheTable(max: int, trace: seq<State>, actions: seq<Action>, n: nat, o: nat)
    requires IsRun(max, trace, actions) && n < |actions|
    ensures o in trace[n].orders ==>
      o in trace[n + 1].orders && LegalMove(actions[n], trace[n].orders[o], trace[n + 1].orders[o])
    ensures o !in trace[n].orders && o in trace[n + 1].orders ==>
      actions[n].Place? && var y := trace[n + 1].orders[o].status;
        if !actions[n].reserved then y.Cancelled? else if actions[n].online then y.PendingPayment? else y.Placed?
  {
    Reached(max, trace, actions, n);
    if o in trace[n].orders { CallMoves(max, trace[n], actions[n], o); }
    CallGrows(max, trace[n], actions[n]);
  }

  /** No order comes or goes, and no webhook event is recorded or forgotten. */
  ghost predicate Grows(s: State, s': State) {
    s'.orders.Keys == s.orders.Keys && s'.recorded == s.recorded
  }

  lemma ReassignGrows(max: int, s: State, o: nat, x: Search)
    ensures Grows(s, Reassign(s, max, o, x).0)
  {
  }

  lemma UpdateDeliveryGrows(max: int, s: State, d: nat, agent: Agent, target: DeliveryStatus, x: Search)
    ensures Grows(s, UpdateDelivery(s, max, d, agent, target, x).0)
  {
  }

  lemma AssignGrows(s: State, o: nat, agent: Option<Agent>, x: Search)
    ensures Grows(s, Assign(s, o, agent, x).0) && Grows(s, TryAutoAssign(s, o, x))
  {
  }

  lemma CallGrows(max: int, s: State, a: Action)
    requires Enabled(s, a)
    ensures s.recorded <= Applied(max, s, a).recorded
    ensures s.orders.Keys <= Applied(max, s, a).orders.Keys
    ensures !a.Place? ==> Applied(max, s, a).orders.Keys == s.orders.Keys
  {
    match a
    case Place(_, _, _, _, _) =>
    case Move(_, _, _, _) =>
    case AssignOrder(o, agent, x) => AssignGrows(s, o, agent, x);
    case AutoAssign(o, x) => AssignGrows(s, o, None, x);
    case ReassignOrder(o, x) => ReassignGrows(max, s, o, x);
    case MoveDelivery(d, agent, target, x) => UpdateDeliveryGrows(max, s, d, agent, target, x);
    case Init(_, _, _) =>
    case Notify(_, _, _, _) =>
    case LogIn(_) =>
    case LogOut(agent, x) =>
      var active := First(ActiveBy(s.deliveries, agent));
      if active.Some? { ReassignGrows(max, GoneOffline(s, agent), s.deliveries[active.value].order, x); }
    case Beat(_) =>
  }

  ghost predicate Final(s: State, o: nat, status: OrderStatus) {
    o in s.orders && s.orders[o].status == status && (status.Delivered? || status.Rejected?)
  }

  lemma FinalStays(max: int, s: State, a: Action, o: nat, status: OrderStatus)
    requires Inv(max, s) && Enabled(s, a) && Final(s, o, status)
    ensures Final(Applied(max, s, a), o, status)
  {
    CallMoves(max, s, a, o);
  }

  /** DELIVERED and REJECTED are final. */
  lemma {:induction false} TerminalForever(max: int, trace: seq<State>, actions: seq<Action>, m: nat, n: nat,
                                           o: nat, status: OrderStatus)
    requires IsRun(max, trace, actions) && m <= n < |trace|
    requires Final(trace[m], o, status)
    ensures Final(trace[n], o, status)
  {
    if m < n {
      TerminalForever(max, trace, actions, m, n - 1, o, status);
      Reached(max, trace, actions, n - 1);
      assert Enabled(trace[n - 1], actions[n - 1]);
      FinalStays(max, trace[n - 1], actions[n - 1], o, status);
    }
  }

  // ---- the life of a delivery -------------------------------------------------------

  /** A delivery keeps its order, agent and predecessor; its status moves along its
      agent's steps, or ends by a reassignment or by the cancellation of its order. */
  ghost predicate LegalStep(a: Action, before: Delivery, after: Delivery) {
    && after == before.(status := after.status)
    && var from, to := before.status, after.status;
       (|| from == to
        || (a.MoveDelivery? && from.Assigned? && (to.Accepted? || to.Rejected?))
        || (a.MoveDelivery? && from.Accepted? && to.Picked?)
        || (a.MoveDelivery? && from.Picked? && to.Delivered?)
        || ((a.ReassignOrder? || a.LogOut?) && (from.Assigned? || from.Accepted? || from.Picked?) && to.Reassigned?)
        || (a.Move? && (from.Assigned? || from.Accepted?) && to.Cancelled?))
  }

  lemma CallSteps(max: int, s: State, a: Action, d: nat)
    requires Inv(max, s) && Enabled(s, a) && d in s.deliveries
    ensures d in Applied(max, s, a).deliveries && LegalStep(a, s.deliveries[d], Applied(max, s, a).deliveries[d])
  {
    hide UpdateStatus, Assign, TryAutoAssign, Reassign, UpdateDelivery, Webhook, InitPayment, GoOffline;
    match a
    case Move(o, target, actor, now) => UpdateStatusSteps(s, o, target, actor, now, d);
    case AssignOrder(o, agent, x) => AssignSteps(s, o, agent, x, d);
    case AutoAssign(o, x) => AssignSteps(s, o, None, x, d);
    case Init(o, mine, id) => InitSteps(s, o, mine, id);
    case Notify(o, txn, event, status) => NotifySteps(s, o, txn, event, status);
    case ReassignOrder(o, x) => ReassignSteps(max, s, o, x, d);
    case MoveDelivery(e, agent, target, x) => DeliverySteps(max, s, e, agent, target, x, d);
    case LogOut(agent, x) => LogOutSteps(max, s, agent, x, d);
    case _ =>
  }

  lemma LogOutSteps(max: int, s: State, agent: Agent, x: Search, d: nat)
    requires (forall e :: e in s.deliveries ==> e < x.id) && d in s.deliveries
    ensures var s' := GoOffline(s, max, agent, x).0;
      d in s'.deliveries && LegalStep(LogOut(agent, x), s.deliveries[d], s'.deliveries[d])
  {
    hide Reassign;
    var active := First(ActiveBy(s.deliveries, agent));
    if active.Some? { ReassignSteps(max, GoneOffline(s, agent), s.deliveries[active.value].order, x, d); }
  }

  lemma UpdateStatusSteps(s: State, o: nat, target: OrderStatus, actor: RequestActor, now: int, d: nat)
    requires CoupledOk(s.orders, s.deliveries) && d in s.deliveries
    ensures var s' := UpdateStatus(s, o, target, actor, now).0;
      d in s'.deliveries && LegalStep(Move(o, target, actor, now), s.deliveries[d], s'.deliveries[d])
  {
    hide CancelActive, MayMove, ResolveActor, WithinWindow;
    if o in s.orders { CancelActiveEffect(s, o); }
  }

  lemma AssignSteps(s: State, o: nat, agent: Option<Agent>, x: Search, d: nat)
    requires (forall e :: e in s.deliveries ==> e < x.id) && d in s.deliveries
    ensures var ds := Assign(s, o, agent, x).0.deliveries; d in ds && ds[d] == s.deliveries[d]
    ensures var ds := TryAutoAssign(s, o, x).deliveries; d in ds && ds[d] == s.deliveries[d]
  {
  }

  lemma InitSteps(s: State, o: nat, mine: bool, id: nat)
    ensures InitPayment(s, o, mine, id).0.deliveries == s.deliveries
  {
  }

  lemma NotifySteps(s: State, o: nat, txn: string, event: string, status: string)
    ensures Webhook(s, o, txn, event, status).0.deliveries == s.deliveries
  {
  }

  lemma ReassignSteps(max: int, s: State, o: nat, x: Search, d: nat)
    requires (forall e :: e in s.deliveries ==> e < x.id) && d in s.deliveries
    ensures var s' := Reassign(s, max, o, x).0;
      d in s'.deliveries && LegalStep(ReassignOrder(o, x), s.deliveries[d], s'.deliveries[d])
  {
  }

  lemma DeliverySteps(max: int, s: State, e: nat, agent: Agent, target: DeliveryStatus, x: Search, d: nat)
    requires (forall e :: e in s.deliveries ==> e < x.id) && d in s.deliveries
    ensures var s' := UpdateDelivery(s, max, e, agent, target, x).0;
      d in s'.deliveries && LegalStep(MoveDelivery(e, agent, target, x), s.deliveries[d], s'.deliveries[d])
  {
  }

  /** In every run each delivery moves only so, whoever calls. */
  lemma DeliveriesMoveLegally(max: int, trace: seq<State>, actions: seq<Action>, n: nat, d: nat)
    requires IsRun(max, trace, actions) && n < |actions| && d in trace[n].deliveries
    ensures d in trace[n + 1].deliveries && LegalStep(actions[n], trace[n].deliveries[d], trace[n + 1].deliveries[d])
  {
    Reached(max, trace, actions, n);
    CallSteps(max, trace[n], actions[n], d);
  }

  // ---- the chain of an order's deliveries ----------------------------------------

  /** e is d or was, step by step, reassigned from it. */
  predicate ComesFrom(ds: map<nat, Delivery>, e: nat, d: nat) {
    e == d || (e in ds && ds[e].from.Some? && ds[e].from.value < e && ComesFrom(ds, ds[e].from.value, d))
  }

  function DeliveriesOf(ds: map<nat, Delivery>, o: nat): set<nat> {
    set d | d in ds && ds[d].order == o
  }

  lemma {:induction false} SameLengthIsSame(ds: map<nat, Delivery>, d: nat, e: nat)
    requires ChainsOk(ds) && d in ds && e in ds && ds[d].order == ds[e].order
    requires ChainLength(ds, d) == ChainLength(ds, e)
    ensures d == e
  {
    assert LinkOk(ds, d) && LinkOk(ds, e);
    if ds[d].from.Some? && ds[e].from.Some? { SameLengthIsSame(ds, ds[d].from.value, ds[e].from.value); }
    assert Apart(ds, d, e) || d == e;
  }

  lemma {:induction false} LongerComesFromShorter(ds: map<nat, Delivery>, d: nat, e: nat)
    requires ChainsOk(ds) && d in ds && e in ds && ds[d].order == ds[e].order
    requires ChainLength(ds, d) <= ChainLength(ds, e)
    ensures ComesFrom(ds, e, d) && d <= e
  {
    assert LinkOk(ds, e);
    if ChainLength(ds, d) == ChainLength(ds, e) {
      SameLengthIsSame(ds, d, e);
    } else {
      LongerComesFromShorter(ds, d, ds[e].from.value);
    }
  }

  lemma {:induction false} FewHaveShortChains(ds: map<nat, Delivery>, o: nat, some: set<nat>, n: nat)
    requires ChainsOk(ds) && some <= DeliveriesOf(ds, o)
    requires forall d :: d in some ==> ChainLength(ds, d) <= n
    ensures |some| <= n
  {
    if last :| last in some && ChainLength(ds, last) == n {
      var rest := some - {last};
      forall d | d in rest ensures ChainLength(ds, d) <= n - 1 {
        if ChainLength(ds, d) == n { SameLengthIsSame(ds, d, last); }
      }
      assert n >= 1;
      FewHaveShortChains(ds, o, rest, n - 1);
    } else if d :| d in some {
      assert n >= 1;
      FewHaveShortChains(ds, o, some, n - 1);
    }
  }

  function Ancestors(ds: map<nat, Delivery>, d: nat): set<nat> {
    if d in ds && ds[d].from.Some? && ds[d].from.value < d then {d} + Ancestors(ds, ds[d].from.value) else {d}
  }

  lemma {:induction false} AncestorsAreDeliveries(ds: map<nat, Delivery>, d: nat)
    requires ChainsOk(ds) && d in ds
    ensures Ancestors(ds, d) <= DeliveriesOf(ds, ds[d].order)
    ensures |Ancestors(ds, d)| == ChainLength(ds, d)
    ensures forall e :: e in Ancestors(ds, d) ==> e <= d
  {
    assert LinkOk(ds, d);
    if ds[d].from.Some? { AncestorsAreDeliveries(ds, ds[d].from.value); }
  }

  lemma {:induction false} PredecessorIsFollowed(ds: map<nat, Delivery>, e: nat, d: nat)
    requires ComesFrom(ds, e, d) && e != d
    ensures !Newest(ds, d)
  {
    if ds[e].from.value != d { PredecessorIsFollowed(ds, ds[e].from.value, d); }
  }

  /** All deliveries an order ever had form one chain by reassigned_from, in id
      order; the attempt count read off its newest delivery is their number, which
      never exceeds the configured maximum. */
  lemma OneChainPerOrder(max: int, trace: seq<State>, actions: seq<Action>, n: nat, o: nat, d: nat, e: nat)
    requires IsRun(max, trace, actions) && n < |trace|
    requires d in DeliveriesOf(trace[n].deliveries, o) && e in DeliveriesOf(trace[n].deliveries, o)
    ensures var ds := trace[n].deliveries;
      && (d <= e ==> ComesFrom(ds, e, d))
      && (Newest(ds, e) ==> ChainLength(ds, e) == |DeliveriesOf(ds, o)|)
      && |DeliveriesOf(ds, o)| <= Limit(max)
  {
    Reached(max, trace, actions, n);
    var ds := trace[n].deliveries;
    if ChainLength(ds, d) <= ChainLength(ds, e) { LongerComesFromShorter(ds, d, e); } else { LongerComesFromShorter(ds, e, d); }
    FewHaveShortChains(ds, o, DeliveriesOf(ds, o), Limit(max));
    if Newest(ds, e) { NewestCounts(ds, o, e); }
  }

  lemma NewestCounts(ds: map<nat, Delivery>, o: nat, e: nat)
    requires ChainsOk(ds) && e in DeliveriesOf(ds, o) && Newest(ds, e)
    ensures ChainLength(ds, e) == |DeliveriesOf(ds, o)|
  {
    var all := DeliveriesOf(ds, o);
    forall x | x in all ensures ChainLength(ds, x) <= ChainLength(ds, e) {
      if ChainLength(ds, x) > ChainLength(ds, e) {
        LongerComesFromShorter(ds, e, x);
        PredecessorIsFollowed(ds, x, e);
      }
    }
    FewHaveShortChains(ds, o, all, ChainLength(ds, e));
    AncestorsAreDeliveries(ds, e);
    SubsetSize(Ancestors(ds, e), all);
  }

  lemma SubsetSize(part: set<nat>, whole: set<nat>)
    requires part <= whole
    ensures |part| <= |whole|
  {
    assert whole == part + (whole - part);
  }

  /** At most one delivery of an order is active or delivered, it is the newest one,
      and all others were rejected or reassigned. */
  lemma OneCurrentDelivery(max: int, trace: seq<State>, actions: seq<Action>, n: nat, d: nat, e: nat)
    requires IsRun(max, trace, actions) && n < |trace|
    requires d in trace[n].deliveries && e in trace[n].deliveries && d != e
    requires trace[n].deliveries[d].order == trace[n].deliveries[e].order
    requires var st := trace[n].deliveries[d].status; st.Assigned? || st.Accepted? || st.Picked? || st.Delivered?
    ensures trace[n].deliveries[e].status.Rejected? || trace[n].deliveries[e].status.Reassigned?
    ensures e < d && Newest(trace[n].deliveries, d)
  {
    Reached(max, trace, actions, n);
    var ds := trace[n].deliveries;
    CurrentIsNewest(ds, d);
    OthersAreSuperseded(ds, d);
    if ChainLength(ds, d) <= ChainLength(ds, e) {
      LongerComesFromShorter(ds, d, e);
      PredecessorIsFollowed(ds, e, d);
    } else {
      LongerComesFromShorter(ds, e, d);
    }
  }

  // ---- payments -----------------------------------------------------------------------

  /** Over any run of placements, payment starts, cancellations and webhooks in any
      order and number: an order has at most one open session, only while it awaits
      payment or is cancelled, and for its total; at most one succeeded charge, for
      its total, and a CAPTURED session exactly beside one, never two; and puts
      order.placed in the outbox at most once, for an online order exactly when it
      has been charged. An online order that is past PENDING_PAYMENT and not
      cancelled has been charged. */
  lemma SingleCapture(max: int, trace: seq<State>, actions: seq<Action>, n: nat, o: nat)
    requires IsRun(max, trace, actions) && n < |trace| && o in trace[n].orders
    ensures var s, order := trace[n], trace[n].orders[o];
      && (forall j, k :: AwaitsPayment(s.sessions, j, o) && AwaitsPayment(s.sessions, k, o) ==> j == k)
      && (forall k :: AwaitsPayment(s.sessions, k, o) ==>
            s.sessions[k].amount == order.total && (order.status.PendingPayment? || order.status.Cancelled?))
      && (forall t, u :: SucceededFor(s.charges, t, o) && SucceededFor(s.charges, u, o) ==> t == u)
      && (forall t :: SucceededFor(s.charges, t, o) ==> s.charges[t].amount == order.total)
      && order.placed <= 1
      && (order.online ==> (order.placed == 1 <==> exists t :: SucceededFor(s.charges, t, o)))
      && (order.online && !order.status.PendingPayment? && !order.status.Cancelled? ==>
            exists t :: SucceededFor(s.charges, t, o))
      && ((exists k :: CapturedFor(s.sessions, k, o)) <==> exists t :: SucceededFor(s.charges, t, o))
      && (forall j, k :: CapturedFor(s.sessions, j, o) && CapturedFor(s.sessions, k, o) ==> j == k)
  {
    Reached(max, trace, actions, n);
    var s, order := trace[n], trace[n].orders[o];
    assert OrderOk(s.charges, o, order);
    PaidIsSucceeded(s.charges, o);
    CapturedIsPaid(s.sessions, s.charges, o);
    forall j, k | AwaitsPayment(s.sessions, j, o) && AwaitsPayment(s.sessions, k, o) ensures j == k {
      assert j != k ==> OneOpen(s.sessions, j, k);
    }
    forall k | AwaitsPayment(s.sessions, k, o)
      ensures s.sessions[k].amount == order.total && (order.status.PendingPayment? || order.status.Cancelled?)
    {
      assert SessionOk(s, k);
    }
    forall t, u | SucceededFor(s.charges, t, o) && SucceededFor(s.charges, u, o) ensures t == u {
      assert t != u ==> OneSuccess(s.charges, t, u);
    }
    forall t | SucceededFor(s.charges, t, o) ensures s.charges[t].amount == order.total {
      assert ChargeOk(s.orders, s.charges[t]);
    }
  }

  predicate AwaitsPayment(sessions: map<nat, Session>, k: nat, o: nat) {
    k in sessions && sessions[k].order == o && (sessions[k].status.Initialized? || sessions[k].status.Pending?)
  }

  predicate CapturedFor(sessions: map<nat, Session>, k: nat, o: nat) {
    k in sessions && sessions[k].order == o && sessions[k].status.Captured?
  }

  lemma CapturedIsPaid(sessions: map<nat, Session>, charges: map<string, Charge>, o: nat)
    requires CapturesOk(sessions, charges)
    ensures (exists k :: CapturedFor(sessions, k, o)) <==> Paid(charges, o)
    ensures forall j, k :: CapturedFor(sessions, j, o) && CapturedFor(sessions, k, o) ==> j == k
  {
    if Paid(charges, o) {
      var t :| t in charges && charges[t].order == o && charges[t].succeeded;
      assert HasCaptured(sessions, o);
      var k :| k in sessions && sessions[k].order == o && sessions[k].status.Captured?;
      assert CapturedFor(sessions, k, o);
    }
    forall j, k | CapturedFor(sessions, j, o) && CapturedFor(sessions, k, o) ensures j == k {
      assert j != k ==> OneCaptured(sessions, j, k);
    }
  }

  predicate SucceededFor(charges: map<string, Charge>, t: string, o: nat) {
    t in charges && charges[t].order == o && charges[t].succeeded
  }

  lemma PaidIsSucceeded(charges: map<string, Charge>, o: nat)
    ensures Paid(charges, o) <==> exists t :: SucceededFor(charges, t, o)
  {
    if t :| t in charges && charges[t].order == o && charges[t].succeeded { assert SucceededFor(charges, t, o); }
    if t :| SucceededFor(charges, t, o) { assert t in charges && charges[t].order == o; }
  }

  ghost predicate Remembers(s: State, s': State) {
    s.recorded <= s'.recorded && s.orders.Keys <= s'.orders.Keys
  }

  lemma RemembersMore(s: State, s': State, s'': State)
    requires Remembers(s, s') && Remembers(s', s'')
    ensures Remembers(s, s'')
  {
  }

  lemma StepRemembers(max: int, trace: seq<State>, actions: seq<Action>, n: nat)
    requires IsRun(max, trace, actions) && n < |actions|
    ensures Remembers(trace[n], trace[n + 1])
  {
    assert trace[n + 1] == Applied(max, trace[n], actions[n]);
    CallGrows(max, trace[n], actions[n]);
  }

  lemma {:induction false} RecordedForever(max: int, trace: seq<State>, actions: seq<Action>, m: nat, n: nat)
    requires IsRun(max, trace, actions) && m <= n < |trace|
    ensures Remembers(trace[m], trace[n])
    decreases n - m
  {
    if m < n {
      StepRemembers(max, trace, actions, m);
      RecordedForever(max, trace, actions, m + 1, n);
      RemembersMore(trace[m], trace[m + 1], trace[n]);
    }
  }

  /** A webhook that was acknowledged once changes nothing when it is delivered
      again, however much later and whatever happened in between. */
  lemma ReplayChangesNothing(max: int, trace: seq<State>, actions: seq<Action>, n: nat, m: nat,
                             o: nat, txn: string, event: string, status: string)
    requires IsRun(max, trace, actions) && n < m < |trace|
    requires actions[n] == Notify(o, txn, event, status) && o in trace[n].orders
    requires Webhook(trace[n], o, txn, event, status).1.Done?
    ensures Webhook(trace[m], o, txn, event, status) == (trace[m], Done)
  {
    RecordedForever(max, trace, actions, n + 1, m);
  }
}
