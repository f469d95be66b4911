/** The Redis busy set as a cache of the active deliveries. */
module FulfilmentPresence {
  import opened Prelude
  import opened Sorting
  import opened Presence
  import opened FulfilmentModel
  import opened FulfilmentInvariant
  import Theorems = FulfilmentTheorems
  import Outcomes = FulfilmentOutcomes

  ghost predicate OneTask(ds: map<nat, Delivery>, d: nat, e: nat)
    requires d in ds && e in ds
  {
    Active(ds[d].status) && Active(ds[e].status) ==> ds[d].agent != ds[e].agent
  }

  ghost predicate NoTwoTasks(ds: map<nat, Delivery>) {
    forall d, e {:trigger OneTask(ds, d, e)} :: d in ds && e in ds && d != e ==> OneTask(ds, d, e)
  }

  /** Online agents are busy exactly when they have an active delivery; nobody has
      two; only online agents are in the geo set. */
  ghost predicate PresenceOk(s: State) {
    && s.geo <= s.online
    && NoTwoTasks(s.deliveries)
    && (forall d :: d in s.deliveries && Active(s.deliveries[d].status) && s.deliveries[d].agent in s.online
          ==> s.deliveries[d].agent in s.busy)
    && (forall a :: a in s.busy ==> ActiveBy(s.deliveries, a) != {})
  }

  // ---- the candidate is idle -------------------------------------------------------

  lemma FirstOfFree(near: seq<Agent>, busy: set<Agent>, limit: nat)
    requires Free(near, busy, limit) != []
    ensures Free(near, busy, limit)[0] in near && Free(near, busy, limit)[0] !in busy
  {
    var a := Free(near, busy, limit)[0];
    assert a in Filter(near, NotIn(busy));
    FilterKeeps(near, NotIn(busy), a);
  }

  lemma FirstOfIdle(rows: seq<Agent>, ds: map<nat, Delivery>, limit: nat)
    requires Take(Filter(rows, Idle(ds)), limit) != []
    ensures ActiveBy(ds, Take(Filter(rows, Idle(ds)), limit)[0]) == {}
  {
  }

  /** Whichever of the two scans it comes from. */
  lemma CandidateIsIdle(s: State, x: Search)
    requires PresenceOk(s) && Sees(s, x) && Candidate(s, x).Some?
    ensures ActiveBy(s.deliveries, Candidate(s, x).value) == {}
  {
    var a := Candidate(s, x).value;
    if Free(x.near, s.busy, CANDIDATE_LIMIT) != [] {
      FirstOfFree(x.near, s.busy, CANDIDATE_LIMIT);
      assert a in s.online && a !in s.busy;
    } else {
      FirstOfIdle(x.rows, s.deliveries, CANDIDATE_LIMIT);
    }
  }

  // ---- what each write does to the cache ------------------------------------------

  lemma StaysActive(ds: map<nat, Delivery>, ds': map<nat, Delivery>, a: Agent)
    requires forall d :: d in ds && ds[d].agent == a && Active(ds[d].status) ==>
               d in ds' && ds'[d].agent == a && Active(ds'[d].status)
    requires ActiveBy(ds, a) != {}
    ensures ActiveBy(ds', a) != {}
  {
  }

  lemma NewTaskKeeps(s: State, o: nat, a: Agent, from: Option<nat>, id: nat)
    requires PresenceOk(s) && o in s.orders && id !in s.deliveries && ActiveBy(s.deliveries, a) == {}
    ensures PresenceOk(CreateAssignment(s, o, a, from, id))
  {
    var s' := CreateAssignment(s, o, a, from, id);
    var ds, ds' := s.deliveries, s'.deliveries;
    forall d, e | d in ds' && e in ds' && d != e ensures OneTask(ds', d, e) {
      if d in ds && e in ds { assert OneTask(ds, d, e); }
      else { assert (if d == id then e else d) !in ActiveBy(ds, a); }
    }
    forall b | b in s'.busy ensures ActiveBy(ds', b) != {} {
      if b == a { assert id in ActiveBy(ds', a); } else { StaysActive(ds, ds', b); }
    }
  }

  lemma EndedTaskKeeps(s: State, d: nat, status: DeliveryStatus)
    requires PresenceOk(s) && d in s.deliveries && Active(s.deliveries[d].status) && !Active(status)
    ensures PresenceOk(MarkFree(SetDelivery(s, d, status), s.deliveries[d].agent))
  {
    var a := s.deliveries[d].agent;
    var s' := MarkFree(SetDelivery(s, d, status), a);
    forall e, f | e in s'.deliveries && f in s'.deliveries && e != f ensures OneTask(s'.deliveries, e, f) {
      assert OneTask(s.deliveries, e, f);
    }
    forall e | e in s'.deliveries && Active(s'.deliveries[e].status) && s'.deliveries[e].agent in s'.online
      ensures s'.deliveries[e].agent in s'.busy
    {
      assert OneTask(s.deliveries, e, d);
    }
    forall b | b in s'.busy ensures ActiveBy(s'.deliveries, b) != {} { StaysActive(s.deliveries, s'.deliveries, b); }
  }

  lemma ProgressKeepsPresence(s: State, d: nat, status: DeliveryStatus)
    requires PresenceOk(s) && d in s.deliveries && Active(s.deliveries[d].status) && Active(status)
    ensures PresenceOk(SetDelivery(s, d, status))
  {
    var s' := SetDelivery(s, d, status);
    forall e, f | e in s'.deliveries && f in s'.deliveries && e != f ensures OneTask(s'.deliveries, e, f) {
      assert OneTask(s.deliveries, e, f);
    }
    forall b | b in s'.busy ensures ActiveBy(s'.deliveries, b) != {} { StaysActive(s.deliveries, s'.deliveries, b); }
  }

  /** The order tables play no part. */
  lemma OtherTablesDoNotMatter(s: State, s': State)
    requires PresenceOk(s) && s'.deliveries == s.deliveries
    requires s'.online == s.online && s'.geo == s.geo && s'.busy == s.busy
    ensures PresenceOk(s')
  {
  }

  // ---- every call ---------------------------------------------------------------------

  lemma TryAssignKeepsPresence(s: State, o: nat, from: Option<nat>, x: Search)
    requires PresenceOk(s) && o in s.orders && Sees(s, x)
    ensures PresenceOk(TryAssign(s, o, from, x).0)
  {
    var c := Candidate(s, x);
    if c.Some? {
      CandidateIsIdle(s, x);
      NewTaskKeeps(s, o, c.value, from, x.id);
    }
  }

  lemma AssignKeepsPresence(s: State, o: nat, agent: Option<Agent>, x: Search)
    requires PresenceOk(s) && Sees(s, x)
    ensures PresenceOk(Assign(s, o, agent, x).0) && PresenceOk(TryAutoAssign(s, o, x))
  {
    if o in s.orders {
      TryAssignKeepsPresence(s, o, None, x);
      if agent.Some? && ActiveBy(s.deliveries, agent.value) == {} { NewTaskKeeps(s, o, agent.value, None, x.id); }
    }
  }

  lemma ReassignKeepsPresence(max: int, s: State, o: nat, x: Search)
    requires PresenceOk(s) && Sees(s, x)
    ensures PresenceOk(Reassign(s, max, o, x).0)
  {
    var active := First(ActiveOf(s.deliveries, o));
    if o in s.orders && active.Some? {
      EndedTaskKeeps(s, active.value, Reassigned);
      var freed := MarkFree(SetDelivery(s, active.value, Reassigned), s.deliveries[active.value].agent);
      assert Sees(freed, x);
      TryAssignKeepsPresence(freed, o, active, x);
    }
  }

  lemma UpdateDeliveryKeepsPresence(max: int, s: State, d: nat, agent: Agent, target: DeliveryStatus, x: Search)
    requires PresenceOk(s) && Sees(s, x)
    ensures PresenceOk(UpdateDelivery(s, max, d, agent, target, x).0)
  {
    var r := UpdateDelivery(s, max, d, agent, target, x);
    if r.1.Done? {
      var row := s.deliveries[d];
      var moved := SetDelivery(s, d, target);
      match target
      case Rejected =>
        EndedTaskKeeps(s, d, target);
        var freed := MarkFree(moved, agent);
        assert Sees(freed, x);
        TryAssignKeepsPresence(freed, row.order, Some(d), x);
      case Delivered =>
        EndedTaskKeeps(s, d, target);
        OtherTablesDoNotMatter(MarkFree(moved, agent), r.0);
      case _ =>
        ProgressKeepsPresence(s, d, target);
        OtherTablesDoNotMatter(moved, r.0);
    }
  }

  /** An order has one active delivery at most, so one agent is freed. */
  lemma CancelActiveKeepsPresence(s: State, o: nat)
    requires PresenceOk(s) && ChainsOk(s.deliveries)
    ensures PresenceOk(CancelActive(s, o))
  {
    var active := ActiveOf(s.deliveries, o);
    var freed := First(active);
    var s' := CancelActive(s, o);
    if freed.Some? {
      OthersAreSuperseded(s.deliveries, freed.value);
      assert active == {freed.value};
      EndedTaskKeeps(s, freed.value, DeliveryStatus.Cancelled);
      assert s'.deliveries == SetDelivery(s, freed.value, DeliveryStatus.Cancelled).deliveries;
    } else {
      assert s'.deliveries == s.deliveries;
    }
  }

  lemma UpdateStatusKeepsPresence(s: State, o: nat, target: OrderStatus, actor: RequestActor, now: int)
    requires PresenceOk(s) && ChainsOk(s.deliveries)
    ensures PresenceOk(UpdateStatus(s, o, target, actor, now).0)
  {
    if o in s.orders {
      var moved := SetOrder(s, o, target);
      OtherTablesDoNotMatter(s, moved);
      CancelActiveKeepsPresence(moved, o);
    }
  }

  lemma GoneOfflineKeeps(s: State, a: Agent)
    requires PresenceOk(s)
    ensures PresenceOk(GoneOffline(s, a))
  {
  }

  lemma GoOfflineKeepsPresence(max: int, s: State, a: Agent, x: Search)
    requires PresenceOk(s) && Sees(GoneOffline(s, a), x)
    ensures PresenceOk(GoOffline(s, max, a, x).0)
  {
    GoneOfflineKeeps(s, a);
    var active := First(ActiveBy(s.deliveries, a));
    if active.Some? { ReassignKeepsPresence(max, GoneOffline(s, a), s.deliveries[active.value].order, x); }
  }

  /** Logging in forgets the busy mark: that is harmless exactly when the agent has no
      active delivery, which the code does not check. */
  lemma LogInIsSafeIff(s: State, a: Agent)
    requires PresenceOk(s)
    ensures PresenceOk(GoOnline(s, a)) <==> ActiveBy(s.deliveries, a) == {}
  {
    var s' := GoOnline(s, a);
    if d :| d in ActiveBy(s.deliveries, a) {
      assert s'.deliveries[d].agent in s'.online && s'.deliveries[d].agent !in s'.busy;
    } else {
      forall d | d in s.deliveries && Active(s.deliveries[d].status) ensures s.deliveries[d].agent != a {
        assert d !in ActiveBy(s.deliveries, a);
      }
    }
  }

  lemma WebhookKeepsPresence(s: State, o: nat, txn: string, event: string, status: string)
    requires PresenceOk(s)
    ensures PresenceOk(Webhook(s, o, txn, event, status).0)
  {
  }

  lemma CallKeepsPresence(max: int, s: State, a: Action)
    requires Inv(max, s) && PresenceOk(s) && Enabled(s, a)
    requires a.LogIn? ==> ActiveBy(s.deliveries, a.agent) == {}
    ensures PresenceOk(Applied(max, s, a))
  {
    match a
    case Place(o, online, total, now, reserved) => OtherTablesDoNotMatter(s, PlaceOrder(s, o, online, total, now, reserved).0);
    case Move(o, target, actor, now) => UpdateStatusKeepsPresence(s, o, target, actor, now);
    case AssignOrder(o, agent, x) => AssignKeepsPresence(s, o, agent, x);
    case AutoAssign(o, x) => AssignKeepsPresence(s, o, None, x);
    case ReassignOrder(o, x) => ReassignKeepsPresence(max, s, o, x);
    case MoveDelivery(d, agent, target, x) => UpdateDeliveryKeepsPresence(max, s, d, agent, target, x);
    case Init(o, mine, id) => OtherTablesDoNotMatter(s, InitPayment(s, o, mine, id).0);
    case Notify(o, txn, event, status) => WebhookKeepsPresence(s, o, txn, event, status);
    case LogIn(agent) => LogInIsSafeIff(s, agent);
    case LogOut(agent, x) => GoOfflineKeepsPresence(max, s, agent, x);
    case Beat(agent) =>
  }

  // ---- over every run ---------------------------------------------------------------

  /** No agent logs in while holding an active delivery. */
  ghost predicate NobodyLogsInTwice(trace: seq<State>, actions: seq<Action>) {
    |trace| == |actions| + 1 &&
    forall n :: 0 <= n < |actions| && actions[n].LogIn? ==> ActiveBy(trace[n].deliveries, actions[n].agent) == {}
  }

  lemma {:induction false} PresenceReached(max: int, trace: seq<State>, actions: seq<Action>, n: nat)
    requires IsRun(max, trace, actions) && NobodyLogsInTwice(trace, actions) && n < |trace|
    ensures PresenceOk(trace[n])
  {
    hide Enabled, Applied, Inv;
    if n > 0 {
      Theorems.StepOf(max, trace, actions, n);
      PresenceReached(max, trace, actions, n - 1);
      Theorems.Reached(max, trace, actions, n - 1);
      CallKeepsPresence(max, trace[n - 1], actions[n - 1]);
    }
  }

  /** In every such run the busy set says of each online agent exactly whether it has
      an active delivery, so no agent ever holds two, however they were assigned: by
      the Redis scan, the Postgres fallback or by hand. */
  lemma BusySetIsExact(max: int, trace: seq<State>, actions: seq<Action>, n: nat, a: Agent)
    requires IsRun(max, trace, actions) && NobodyLogsInTwice(trace, actions) && n < |trace|
    ensures var s := trace[n];
      && (a in s.geo ==> a in s.online)
      && (a in s.online ==> (a in s.busy <==> ActiveBy(s.deliveries, a) != {}))
      && (forall d, e :: d in ActiveBy(s.deliveries, a) && e in ActiveBy(s.deliveries, a) ==> d == e)
  {
    PresenceReached(max, trace, actions, n);
    var s := trace[n];
    forall d, e | d in ActiveBy(s.deliveries, a) && e in ActiveBy(s.deliveries, a) ensures d == e {
      assert OneTask(s.deliveries, d, e) || d == e;
    }
  }

  /** Without that proviso it fails: an agent that logs in during a delivery is given
      the next order that has it nearest. */
  lemma LoggingInMidDeliveryDoublesUp(s: State, a: Agent, d: nat, o: nat, id: nat)
    requires d in s.deliveries && s.deliveries[d].agent == a && Active(s.deliveries[d].status)
    requires o in s.orders && s.orders[o].status.Ready? && NoDelivery(s.deliveries, o)
    requires forall e :: e in s.deliveries ==> e < id
    ensures var s1, x := GoOnline(s, a), Search([a], [], id);
      Sees(s1, x) && ActiveBy(Assign(s1, o, None, x).0.deliveries, a) >= {d, id}
  {
  }

  // ---- and such a state is reached ----------------------------------------------------

  function End(trace: seq<State>): State
    requires trace != []
  {
    trace[|trace| - 1]
  }

  lemma OneMore(max: int, trace: seq<State>, actions: seq<Action>, a: Action) returns (trace': seq<State>, actions': seq<Action>)
    requires IsRun(max, trace, actions) && Enabled(End(trace), a)
    ensures IsRun(max, trace', actions') && End(trace') == Applied(max, End(trace), a)
  {
    trace', actions' := trace + [Applied(max, End(trace), a)], actions + [a];
    forall n | 0 <= n < |actions'|
      ensures Enabled(trace'[n], actions'[n]) && trace'[n + 1] == Applied(max, trace'[n], actions'[n])
    {
      if n < |actions| { assert actions'[n] == actions[n]; }
    }
  }

  const STAFF: RequestActor := RequestActor(SystemAdmin, true, true)

  /** An admin moves an order one step towards READY. */
  lemma StaffMoves(s: State, o: nat, target: OrderStatus)
    requires o in s.orders && Outcomes.StaffMove(s.orders[o].status, target)
    ensures UpdateStatus(s, o, target, STAFF, 0).0 == SetOrder(s, o, target)
  {
    Outcomes.AllowedIs(s.orders[o], target, STAFF, 0);
  }

  lemma MoveOn(max: int, trace: seq<State>, actions: seq<Action>, o: nat, target: OrderStatus)
    returns (trace': seq<State>, actions': seq<Action>)
    requires IsRun(max, trace, actions) && o in End(trace).orders && Outcomes.StaffMove(End(trace).orders[o].status, target)
    ensures IsRun(max, trace', actions') && End(trace') == SetOrder(End(trace), o, target)
  {
    StaffMoves(End(trace), o, target);
    trace', actions' := OneMore(max, trace, actions, Move(o, target, STAFF, 0));
  }

  /** A cash order is placed, accepted and prepared. */
  lemma MakeReady(max: int, trace: seq<State>, actions: seq<Action>, o: nat)
    returns (trace': seq<State>, actions': seq<Action>)
    requires IsRun(max, trace, actions) && o !in End(trace).orders
    ensures IsRun(max, trace', actions')
    ensures End(trace') == End(trace).(orders := End(trace).orders[o := Order(Ready, false, 1, 0, 1)])
  {
    hide IsRun;
    trace', actions' := OneMore(max, trace, actions, Place(o, false, 1, 0, true));
    trace', actions' := MoveOn(max, trace', actions', o, OrderStatus.Accepted);
    trace', actions' := MoveOn(max, trace', actions', o, Preparing);
    trace', actions' := MoveOn(max, trace', actions', o, Ready);
  }

  /** From empty tables, with nothing but calls the services accept: two orders, one
      agent, and a log-in between the two assignments. */
  lemma DoubleRun(max: int, a: Agent) returns (trace: seq<State>, actions: seq<Action>)
    ensures IsRun(max, trace, actions) && ActiveBy(End(trace).deliveries, a) == {1, 2}
  {
    trace, actions := [NOTHING], [];
    assert IsRun(max, trace, actions);
    hide IsRun;
    trace, actions := MakeReady(max, trace, actions, 1);
    trace, actions := MakeReady(max, trace, actions, 2);
    trace, actions := OneMore(max, trace, actions, LogIn(a));
    var one := AssignOrder(1, Some(a), Search([a], [], 1));
    trace, actions := OneMore(max, trace, actions, one);
    assert End(trace).deliveries == map[1 := Delivery(1, a, DeliveryStatus.Assigned, None)];
    trace, actions := OneMore(max, trace, actions, LogIn(a));
    var x := Search([a], [], 2);
    LoggingInMidDeliveryDoublesUp(End(trace), a, 1, 2, 2);
    assert GoOnline(End(trace), a) == End(trace);
    trace, actions := OneMore(max, trace, actions, AssignOrder(2, None, x));
  }

  /** Whatever the maximum and whoever the agent: some run from empty tables ends with
      the agent holding two active deliveries. */
  lemma TwoTasksAreReachable(max: int, a: Agent)
    ensures exists trace, actions :: IsRun(max, trace, actions) && ActiveBy(End(trace).deliveries, a) == {1, 2}
  {
    var trace, actions := DoubleRun(max, a);
  }
}
