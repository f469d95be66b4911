/** The transactional outbox (src/lib/events): events are inserted together with
    the change they announce, and drains claim batches of them with FOR UPDATE
    SKIP LOCKED, publish each one and mark them, all in one transaction. */
module Outbox {
  import opened Prelude

  type EventId = nat

  /** dispatched: dispatched_at is set. attempts: failed publishes so far. */
  datatype Event = Event(createdAt: int, dispatched: bool, attempts: nat)

  type Table = map<EventId, Event>

  // ---- one drain, as the program it is --------------------------------------

  /** The first n events of the batch that the broker accepts (dispatchedIds). */
  function Sent(batch: seq<EventId>, n: nat, ok: EventId -> bool): (ids: set<EventId>)
    requires n <= |batch|
  {
    if n == 0 then {}
    else Sent(batch, n - 1, ok) + (if ok(batch[n - 1]) then {batch[n - 1]} else {})
  }

  /** markOutboxEventFailed. */
  function Again(event: Event): Event {
    event.(attempts := event.attempts + 1)
  }

  /** markOutboxEventFailed for each of the first n events the broker refuses. */
  function Failed(events: Table, batch: seq<EventId>, n: nat, ok: EventId -> bool): (after: Table)
    requires n <= |batch| && forall e :: e in batch ==> e in events
    ensures after.Keys == events.Keys
  {
    if n == 0 then events
    else
      var before := Failed(events, batch, n - 1, ok);
      var e := batch[n - 1];
      if ok(e) then before else before[e := Again(before[e])]
  }

  /** markOutboxEventsDispatched. */
  function Marked(events: Table, ids: set<EventId>): Table {
    map e | e in events :: if e in ids then events[e].(dispatched := true) else events[e]
  }

  ghost predicate NoDuplicates<T>(s: seq<T>) {
    forall i, j :: 0 <= i < j < |s| ==> s[i] != s[j]
  }

  class OutboxStore {
    var events: Table
    var published: multiset<EventId>

    constructor ()
      ensures events == map[] && published == multiset{}
    {
      events := map[];
      published := multiset{};
    }

    /** insertOutboxEvent, inside the caller's transaction. */
    method Insert(id: EventId, createdAt: int)
      requires id !in events
      modifies this`events
      ensures events == old(events)[id := Event(createdAt, false, 0)]
    {
      events := events[id := Event(createdAt, false, 0)];
    }

    /** Publish one event, or count the failure. */
    method TryPublish(e: EventId, ok: EventId -> bool) returns (accepted: bool)
      requires e in events
      modifies this
      ensures accepted == ok(e)
      ensures published == old(published) + (if accepted then multiset{e} else multiset{})
      ensures events == if accepted then old(events) else old(events)[e := Again(old(events)[e])]
    {
      accepted := ok(e);
      if accepted {
        published := published + multiset{e};
      } else {
        events := events[e := Again(events[e])];
      }
    }

    /** The loop over a claimed batch. */
    method PublishAll(batch: seq<EventId>, ok: EventId -> bool) returns (dispatchedIds: set<EventId>)
      requires NoDuplicates(batch) && forall e :: e in batch ==> e in events
      modifies this
      ensures dispatchedIds == Sent(batch, |batch|, ok)
      ensures events == Failed(old(events), batch, |batch|, ok)
      ensures published == old(published) + multiset(Sent(batch, |batch|, ok))
    {
      dispatchedIds := {};
      ghost var first, before := events, published;
      for n := 0 to |batch|
        invariant dispatchedIds == Sent(batch, n, ok)
        invariant published == before + multiset(Sent(batch, n, ok))
        invariant events == Failed(first, batch, n, ok)
      {
        SendOneMore(batch, n, ok);
        FailOneMore(first, batch, n, ok);
        var accepted := TryPublish(batch[n], ok);
        if accepted { dispatchedIds := dispatchedIds + {batch[n]}; }
      }
    }

    /** drainOutboxForRegion over a claimed batch, with the broker accepting just
        the events for which ok holds; its two counters count what the loop put in
        dispatchedIds and what it did not. */
    method Drain(batch: seq<EventId>, ok: EventId -> bool) returns (dispatched: nat, failed: nat)
      requires NoDuplicates(batch) && forall e :: e in batch ==> e in events
      modifies this
      ensures events == Marked(Failed(old(events), batch, |batch|, ok), Sent(batch, |batch|, ok))
      ensures published == old(published) + multiset(Sent(batch, |batch|, ok))
      ensures dispatched == |Sent(batch, |batch|, ok)| && dispatched + failed == |batch|
    {
      var dispatchedIds := PublishAll(batch, ok);
      SentIsBounded(batch, |batch|, ok);
      dispatched, failed := |dispatchedIds|, |batch| - |dispatchedIds|;
      events := Marked(events, dispatchedIds);
    }
  }

  lemma {:induction false} SentIsBounded(batch: seq<EventId>, n: nat, ok: EventId -> bool)
    requires n <= |batch| && NoDuplicates(batch)
    ensures |Sent(batch, n, ok)| <= n
  {
    if n > 0 {
      SentIsBounded(batch, n - 1, ok);
      SendOneMore(batch, n - 1, ok);
    }
  }

  lemma {:induction false} SentFromPrefix(batch: seq<EventId>, n: nat, ok: EventId -> bool, e: EventId)
    requires n <= |batch|
    ensures e in Sent(batch, n, ok) <==> ok(e) && e in batch[..n]
  {
    if n > 0 {
      SentFromPrefix(batch, n - 1, ok, e);
      assert batch[..n] == batch[..n - 1] + [batch[n - 1]];
    }
  }

  lemma SendOneMore(batch: seq<EventId>, n: nat, ok: EventId -> bool)
    requires n < |batch| && NoDuplicates(batch)
    ensures var before, after, e := Sent(batch, n, ok), Sent(batch, n + 1, ok), batch[n];
      if ok(e) then after == before + {e} && |after| == |before| + 1 && multiset(after) == multiset(before) + multiset{e}
      else after == before
  {
    SentFromPrefix(batch, n, ok, batch[n]);
  }

  lemma FailOneMore(events: Table, batch: seq<EventId>, n: nat, ok: EventId -> bool)
    requires n < |batch| && forall e :: e in batch ==> e in events
    ensures batch[n] in Failed(events, batch, n, ok)
    ensures var before, e := Failed(events, batch, n, ok), batch[n];
      Failed(events, batch, n + 1, ok) == if ok(e) then before else before[e := Again(before[e])]
  {
  }

  lemma {:induction false} FailedFromPrefix(events: Table, batch: seq<EventId>, n: nat, ok: EventId -> bool, e: EventId)
    requires n <= |batch| && NoDuplicates(batch) && (forall e :: e in batch ==> e in events) && e in events
    ensures Failed(events, batch, n, ok)[e] == if e in batch[..n] && !ok(e) then Again(events[e]) else events[e]
  {
    if n > 0 {
      FailedFromPrefix(events, batch, n - 1, ok, e);
      assert batch[..n] == batch[..n - 1] + [batch[n - 1]];
      assert batch[n - 1] !in batch[..n - 1];
    }
  }

  /** What one drain means: every event of the batch the broker took is dispatched,
      every other one stays undispatched with one more attempt, and no other
      event changes. */
  lemma DrainOutcome(events: Table, batch: seq<EventId>, ok: EventId -> bool, e: EventId)
    requires NoDuplicates(batch) && (forall e :: e in batch ==> e in events) && e in events
    ensures var after := Marked(Failed(events, batch, |batch|, ok), Sent(batch, |batch|, ok));
      && after.Keys == events.Keys
      && after[e] == (if e !in batch then events[e]
                      else if ok(e) then events[e].(dispatched := true)
                      else events[e].(attempts := events[e].attempts + 1))
  {
    assert batch[..|batch|] == batch;
    SentFromPrefix(batch, |batch|, ok, e);
    FailedFromPrefix(events, batch, |batch|, ok, e);
  }

  // ---- overlapping drains --------------------------------------------------

  /** left:   events of the claimed batch not yet tried
      sent:   events the broker accepted (dispatchedIds)
      missed: events it refused, whose attempts are counted inside the transaction */
  datatype Drain = Drain(left: seq<EventId>, sent: set<EventId>, missed: set<EventId>)

  /** published: how often the broker accepted each event
      wasted:    how often it did so for a drain that then rolled back or crashed */
  datatype State = State(events: Table, drains: map<nat, Drain>,
                         published: multiset<EventId>, wasted: multiset<EventId>)

  datatype Action =
    | Commit(id: EventId, createdAt: int)       // a domain change with its event
    | Claim(d: nat, batch: seq<EventId>)
    | Publish(d: nat, accepted: bool)
    | Finish(d: nat)                            // mark dispatched, commit
    | Abort(d: nat)                             // rollback, or the process died

  function Held(d: Drain): set<EventId> {
    (set e | e in d.left) + d.sent + d.missed
  }

  function Locked(s: State): set<EventId> {
    set d, e | d in s.drains && e in Held(s.drains[d]) :: e
  }

  /** SELECT ... WHERE dispatched_at IS NULL ORDER BY created_at FOR UPDATE SKIP
      LOCKED LIMIT n: undispatched rows nobody else holds, oldest first. */
  ghost predicate Claimable(s: State, batch: seq<EventId>) {
    && NoDuplicates(batch)
    && (forall e :: e in batch ==> e in s.events && !s.events[e].dispatched && e !in Locked(s))
    && (forall i, j :: 0 <= i < j < |batch| ==> s.events[batch[i]].createdAt <= s.events[batch[j]].createdAt)
  }

  ghost predicate Enabled(s: State, a: Action) {
    match a
    case Commit(id, _) => id !in s.events
    case Claim(d, batch) => d !in s.drains && Claimable(s, batch)
    case Publish(d, _) => d in s.drains && s.drains[d].left != []
    case Finish(d) => d in s.drains && s.drains[d].left == []
    case Abort(d) => d in s.drains
  }

  function Applied(s: State, a: Action): State
    requires Enabled(s, a)
  {
    match a
    case Commit(id, createdAt) => s.(events := s.events[id := Event(createdAt, false, 0)])
    case Claim(d, batch) => s.(drains := s.drains[d := Drain(batch, {}, {})])
    case Publish(d, accepted) =>
      var dr := s.drains[d];
      var e := dr.left[0];
      if accepted
      then s.(drains := s.drains[d := Drain(dr.left[1..], dr.sent + {e}, dr.missed)],
              published := s.published + multiset{e})
      else s.(drains := s.drains[d := Drain(dr.left[1..], dr.sent, dr.missed + {e})])
    case Finish(d) => s.(events := Settled(s.events, s.drains[d]), drains := s.drains - {d})
    case Abort(d) => s.(drains := s.drains - {d}, wasted := s.wasted + multiset(s.drains[d].sent))
  }

  function Settled(events: Table, d: Drain): Table {
    map e | e in events ::
      if e in d.sent then events[e].(dispatched := true)
      else if e in d.missed then Again(events[e])
      else events[e]
  }

  function Senders(drains: map<nat, Drain>, e: EventId): set<nat> {
    set d | d in drains && e in drains[d].sent
  }

  /** How many successful publishes of e belong to drains still in progress. */
  function InFlight(drains: map<nat, Drain>, e: EventId): nat {
    |Senders(drains, e)|
  }

  ghost predicate DrainOk(s: State, d: nat)
    requires d in s.drains
  {
    var dr := s.drains[d];
    && NoDuplicates(dr.left)
    && (forall e :: e in Held(dr) ==> e in s.events && !s.events[e].dispatched)
    && (forall e :: e in dr.left ==> e !in dr.sent && e !in dr.missed)
    && dr.sent !! dr.missed
  }

  ghost predicate DisjointDrains(s: State) {
    forall d1, d2 | d1 in s.drains && d2 in s.drains && d1 != d2 :: Held(s.drains[d1]) !! Held(s.drains[d2])
  }

  /** Each accepted publish is a dispatch, or belongs to a drain in progress, or
      was wasted by a drain that did not commit. */
  ghost predicate Accounted(s: State, e: EventId) {
    s.published[e] == (if e in s.events && s.events[e].dispatched then 1 else 0)
                      + InFlight(s.drains, e) + s.wasted[e]
  }

  ghost predicate Inv(s: State) {
    && (forall d :: d in s.drains ==> DrainOk(s, d))
    && DisjointDrains(s)
    && forall e: EventId :: Accounted(s, e)
  }

  ghost predicate Initial(s: State) {
    s.drains == map[] && s.published == multiset{} && s.wasted == multiset{}
    && forall e :: e in s.events ==> !s.events[e].dispatched
  }

  lemma InFlightAfter(drains: map<nat, Drain>, d: nat, dr: Drain, e: EventId)
    ensures InFlight(drains[d := dr], e) ==
              InFlight(drains, e) + (if e in dr.sent then 1 else 0)
                                  - (if d in drains && e in drains[d].sent then 1 else 0)
  {
    var a, b := Senders(drains, e), Senders(drains[d := dr], e);
    assert a - {d} == b - {d};
    WithAndWithout(a, d);
    WithAndWithout(b, d);
  }

  lemma WithAndWithout(a: set<nat>, d: nat)
    ensures |a| == |a - {d}| + (if d in a then 1 else 0)
  {
  }

  lemma InFlightWithout(drains: map<nat, Drain>, d: nat, e: EventId)
    requires d in drains
    ensures InFlight(drains - {d}, e) == InFlight(drains, e) - (if e in drains[d].sent then 1 else 0)
  {
    var a, b := Senders(drains, e), Senders(drains - {d}, e);
    assert a == b + (if e in drains[d].sent then {d} else {});
  }

  lemma StepAccounts(s: State, a: Action, e: EventId)
    requires Inv(s) && Enabled(s, a)
    ensures Accounted(Applied(s, a), e)
  {
    assert Accounted(s, e);
    match a
    case Commit(_, _) =>
    case Claim(d, batch) => InFlightAfter(s.drains, d, Drain(batch, {}, {}), e);
    case Publish(d, accepted) => InFlightAfter(s.drains, d, Applied(s, a).drains[d], e);
    case Finish(d) => InFlightWithout(s.drains, d, e);
    case Abort(d) => InFlightWithout(s.drains, d, e);
  }

  lemma HeldAfterPublish(s: State, d: nat, accepted: bool)
    requires Inv(s) && Enabled(s, Publish(d, accepted))
    ensures DrainOk(Applied(s, Publish(d, accepted)), d)
    ensures Held(Applied(s, Publish(d, accepted)).drains[d]) == Held(s.drains[d])
  {
  }

  lemma DrainsAfterPublish(s: State, d: nat, accepted: bool)
    requires Inv(s) && Enabled(s, Publish(d, accepted))
    ensures var s' := Applied(s, Publish(d, accepted));
      (forall o :: o in s'.drains ==> DrainOk(s', o)) && DisjointDrains(s')
  {
    var s' := Applied(s, Publish(d, accepted));
    HeldAfterPublish(s, d, accepted);
    forall o | o in s'.drains ensures DrainOk(s', o) && Held(s'.drains[o]) == Held(s.drains[o]) {
      if o != d { assert DrainOk(s, o); }
    }
  }

  lemma DrainsAfterClaim(s: State, d: nat, batch: seq<EventId>)
    requires Inv(s) && Enabled(s, Claim(d, batch))
    ensures var s' := Applied(s, Claim(d, batch));
      (forall o :: o in s'.drains ==> DrainOk(s', o)) && DisjointDrains(s')
  {
  }

  lemma DrainsAfterFinish(s: State, d: nat)
    requires Inv(s) && Enabled(s, Finish(d))
    ensures var s' := Applied(s, Finish(d));
      (forall o :: o in s'.drains ==> DrainOk(s', o)) && DisjointDrains(s')
  {
  }

  lemma EveryStepKeeps(s: State, a: Action)
    requires Inv(s) && Enabled(s, a)
    ensures Inv(Applied(s, a))
  {
    var s' := Applied(s, a);
    forall e: EventId ensures Accounted(s', e) { StepAccounts(s, a, e); }
    match a
    case Commit(_, _) =>
      forall o | o in s'.drains ensures DrainOk(s', o) { assert DrainOk(s, o); }
    case Claim(d, batch) => DrainsAfterClaim(s, d, batch);
    case Publish(d, accepted) => DrainsAfterPublish(s, d, accepted);
    case Finish(d) => DrainsAfterFinish(s, d);
    case Abort(d) =>
      forall o | o in s'.drains ensures DrainOk(s', o) { assert DrainOk(s, o); }
  }

  // ---- over every run ----------------------------------------------------------

  ghost predicate IsRun(trace: seq<State>, actions: seq<Action>) {
    && |trace| == |actions| + 1
    && Initial(trace[0])
    && forall n {:trigger actions[n]} | 0 <= n < |actions| :: Enabled(trace[n], actions[n]) && trace[n + 1] == Applied(trace[n], actions[n])
  }

  lemma {:induction false} Reached(trace: seq<State>, actions: seq<Action>, n: nat)
    requires IsRun(trace, actions) && n < |trace|
    ensures Inv(trace[n])
  {
    if n == 0 {
      forall e: EventId ensures Accounted(trace[0], e) {
        assert Senders(trace[0].drains, e) == {};
      }
    } else {
      Reached(trace, actions, n - 1);
      EveryStepKeeps(trace[n - 1], actions[n - 1]);
    }
  }

  /** At least once: an event is marked dispatched only if the broker took it, and
      every accepted publish beyond that one belongs to a drain that is still
      running or did not commit. Drains that overlap hold disjoint batches. */
  lemma DispatchedWasPublished(trace: seq<State>, actions: seq<Action>, n: nat, e: EventId)
    requires IsRun(trace, actions) && n < |trace|
    ensures var s := trace[n];
      && (e in s.events && s.events[e].dispatched ==> s.published[e] >= 1)
      && s.published[e] == (if e in s.events && s.events[e].dispatched then 1 else 0)
                           + InFlight(s.drains, e) + s.wasted[e]
      && forall d1, d2 | d1 in s.drains && d2 in s.drains && d1 != d2 :: Held(s.drains[d1]) !! Held(s.drains[d2])
  {
    Reached(trace, actions, n);
    assert Accounted(trace[n], e);
  }

  /** No committed event disappears, none is ever un-dispatched, its age stays and
      its attempts only grow. */
  lemma {:induction false} EventsStay(trace: seq<State>, actions: seq<Action>, m: nat, n: nat, e: EventId)
    requires IsRun(trace, actions) && m <= n < |trace| && e in trace[m].events
    ensures e in trace[n].events && (trace[m].events[e].dispatched ==> trace[n].events[e].dispatched)
    ensures trace[n].events[e].createdAt == trace[m].events[e].createdAt && trace[m].events[e].attempts <= trace[n].events[e].attempts
  {
    if m < n {
      EventsStay(trace, actions, m, n - 1, e);
      assert Enabled(trace[n - 1], actions[n - 1]);
    }
  }

  /** Exactly once when no drain is rolled back or killed. */
  lemma ExactlyOnceWithoutCrashes(trace: seq<State>, actions: seq<Action>, n: nat, e: EventId)
    requires IsRun(trace, actions) && n < |trace|
    requires forall a :: a in actions ==> !a.Abort?
    requires e in trace[n].events && trace[n].events[e].dispatched
    ensures trace[n].published[e] == 1
  {
    Reached(trace, actions, n);
    NothingWasted(trace, actions, n);
    var s := trace[n];
    assert Accounted(s, e);
    forall d | d in s.drains ensures e !in s.drains[d].sent {
      assert DrainOk(s, d) && s.drains[d].sent <= Held(s.drains[d]);
    }
    assert Senders(s.drains, e) == {};
  }

  lemma {:induction false} NothingWasted(trace: seq<State>, actions: seq<Action>, n: nat)
    requires IsRun(trace, actions) && n < |trace|
    requires forall a :: a in actions ==> !a.Abort?
    ensures trace[n].wasted == multiset{}
  {
    if n > 0 {
      NothingWasted(trace, actions, n - 1);
      assert actions[n - 1] in actions;
    }
  }

  /** When no drain is running, the events published more than they were dispatched
      are exactly those some drain published and then failed to commit. */
  lemma DuplicatesAreWaste(trace: seq<State>, actions: seq<Action>, n: nat, e: EventId)
    requires IsRun(trace, actions) && n < |trace| && trace[n].drains == map[]
    ensures e in trace[n].events && trace[n].events[e].dispatched ==>
              (trace[n].published[e] > 1 <==> trace[n].wasted[e] > 0)
  {
    Reached(trace, actions, n);
    assert Accounted(trace[n], e);
    assert Senders(trace[n].drains, e) == {};
  }

  // ---- one drain among the others -------------------------------------------------

  /** Drain d tries e, its oldest event left, and the broker accepts it or not. */
  predicate Tries(s: State, a: Action, d: nat, e: EventId, accepted: bool) {
    a == Publish(d, accepted) && d in s.drains && s.drains[d].left != [] && s.drains[d].left[0] == e
  }

  ghost predicate Tried(trace: seq<State>, actions: seq<Action>, m: nat, n: nat, d: nat, e: EventId, accepted: bool)
    requires n <= |actions| && |trace| == |actions| + 1
  {
    exists j :: m < j < n && Tries(trace[j], actions[j], d, e, accepted)
  }

  /** Drain d claims its batch at m and is still at it at n. */
  ghost predicate AtWork(actions: seq<Action>, m: nat, n: nat, d: nat) {
    && m < n <= |actions| && actions[m].Claim? && actions[m].d == d
    && forall j :: m < j < n ==> actions[j] != Finish(d) && actions[j] != Abort(d)
  }

  lemma TriedOneMore(trace: seq<State>, actions: seq<Action>, m: nat, n: nat, d: nat, e: EventId, accepted: bool)
    requires m < n < |actions| && |trace| == |actions| + 1
    ensures Tried(trace, actions, m, n + 1, d, e, accepted) <==>
              Tried(trace, actions, m, n, d, e, accepted) || Tries(trace[n], actions[n], d, e, accepted)
  {
    if Tries(trace[n], actions[n], d, e, accepted) { assert Tried(trace, actions, m, n + 1, d, e, accepted); }
  }

  /** One step of a drain at work: it tries its oldest event left or stands still. */
  lemma DrainStep(trace: seq<State>, actions: seq<Action>, n: nat, d: nat)
    requires IsRun(trace, actions) && n < |actions| && d in trace[n].drains
    requires actions[n] != Finish(d) && actions[n] != Abort(d)
    ensures d in trace[n + 1].drains
    ensures if actions[n].Publish? && actions[n].d == d then OneMore(trace[n].drains[d], trace[n + 1].drains[d], actions[n].accepted)
            else trace[n + 1].drains[d] == trace[n].drains[d]
  {
    assert Enabled(trace[n], actions[n]) && trace[n + 1] == Applied(trace[n], actions[n]);
  }

  ghost predicate OneMore(dr: Drain, dr': Drain, accepted: bool) {
    && dr.left != [] && dr'.left == dr.left[1..]
    && dr'.sent == dr.sent + (if accepted then {dr.left[0]} else {})
    && dr'.missed == dr.missed + (if accepted then {} else {dr.left[0]})
  }

  /** What is left is the end of the batch, the rest is sent or missed. */
  ghost predicate Covers(dr: Drain, batch: seq<EventId>) {
    && |dr.left| <= |batch| && dr.left == batch[|batch| - |dr.left|..]
    && (forall e :: e in batch[..|batch| - |dr.left|] <==> e in dr.sent || e in dr.missed)
  }

  lemma CoversOneMore(dr: Drain, dr': Drain, accepted: bool, batch: seq<EventId>)
    requires Covers(dr, batch) && OneMore(dr, dr', accepted)
    ensures Covers(dr', batch)
  {
    var k := |batch| - |dr.left|;
    assert batch[..k + 1] == batch[..k] + [dr.left[0]] && dr.left[1..] == batch[k + 1..];
  }

  /** A drain goes through its batch from the oldest event to the youngest, whatever
      the other drains do. */
  lemma {:induction false} DrainProgress(trace: seq<State>, actions: seq<Action>, m: nat, n: nat, d: nat)
    requires IsRun(trace, actions) && AtWork(actions, m, n, d)
    ensures d in trace[n].drains
    ensures Covers(trace[n].drains[d], actions[m].batch)
  {
    if n == m + 1 {
      assert Enabled(trace[m], actions[m]) && trace[m + 1] == Applied(trace[m], actions[m]);
    } else {
      hide Covers, OneMore;
      DrainProgress(trace, actions, m, n - 1, d);
      DrainStep(trace, actions, n - 1, d);
      if actions[n - 1].Publish? && actions[n - 1].d == d {
        CoversOneMore(trace[n - 1].drains[d], trace[n].drains[d], actions[n - 1].accepted, actions[m].batch);
      }
    }
  }

  /** Of what is left of its batch it always tries the oldest, and it never tries an
      event that is dispatched. */
  lemma OldestFirst(trace: seq<State>, actions: seq<Action>, m: nat, n: nat, d: nat, e: EventId, accepted: bool, f: EventId)
    requires IsRun(trace, actions) && AtWork(actions, m, n, d) && n < |actions|
    requires Tries(trace[n], actions[n], d, e, accepted) && f in trace[n].drains[d].left
    ensures e in trace[n].events && f in trace[n].events && !trace[n].events[e].dispatched
    ensures trace[n].events[e].createdAt <= trace[n].events[f].createdAt
  {
    var batch, left := actions[m].batch, trace[n].drains[d].left;
    DrainProgress(trace, actions, m, n, d);
    Reached(trace, actions, n);
    assert DrainOk(trace[n], d);
    assert Enabled(trace[m], actions[m]) && trace[m + 1] == Applied(trace[m], actions[m]);
    assert e == batch[|batch| - |left|] && forall i :: 0 <= i < |left| ==> left[i] == batch[|batch| - |left| + i];
    EventsStay(trace, actions, m, n, e);
    EventsStay(trace, actions, m, n, f);
  }

  /** It has sent what the broker accepted and missed what it refused. */
  lemma {:induction false} SentIsTried(trace: seq<State>, actions: seq<Action>, m: nat, n: nat, d: nat, e: EventId)
    requires IsRun(trace, actions) && AtWork(actions, m, n, d)
    ensures d in trace[n].drains
    ensures e in trace[n].drains[d].sent <==> Tried(trace, actions, m, n, d, e, true)
    ensures e in trace[n].drains[d].missed <==> Tried(trace, actions, m, n, d, e, false)
  {
    if n == m + 1 {
      assert Enabled(trace[m], actions[m]) && trace[m + 1] == Applied(trace[m], actions[m]);
    } else {
      SentIsTried(trace, actions, m, n - 1, d, e);
      DrainStep(trace, actions, n - 1, d);
      TriedOneMore(trace, actions, m, n - 1, d, e, true);
      TriedOneMore(trace, actions, m, n - 1, d, e, false);
      hide IsRun, Tried;
    }
  }

  /** Only its commit changes an event: it dispatches those it has sent, counts one
      more attempt for those it has missed, and no other event changes. */
  lemma EventAfter(trace: seq<State>, actions: seq<Action>, m: nat, n: nat, d: nat, e: EventId)
    requires IsRun(trace, actions) && AtWork(actions, m, n, d) && n < |actions| && actions[n] == Finish(d)
    requires e in trace[n].events
    ensures e in trace[n + 1].events
    ensures var before, after, batch := trace[n].events[e], trace[n + 1].events[e], actions[m].batch;
      && (e in batch <==> Tried(trace, actions, m, n, d, e, true) || Tried(trace, actions, m, n, d, e, false))
      && !(Tried(trace, actions, m, n, d, e, true) && Tried(trace, actions, m, n, d, e, false))
      && (Tried(trace, actions, m, n, d, e, true) ==> after == Event(before.createdAt, true, before.attempts))
      && (Tried(trace, actions, m, n, d, e, false) ==> after == Event(before.createdAt, before.dispatched, before.attempts + 1))
      && (e !in batch ==> after == before)
  {
    DrainProgress(trace, actions, m, n, d);
    SentIsTried(trace, actions, m, n, d, e);
    Reached(trace, actions, n);
    assert Enabled(trace[n], actions[n]) && trace[n + 1] == Applied(trace[n], actions[n]);
    var dr, batch := trace[n].drains[d], actions[m].batch;
    assert DrainOk(trace[n], d);
    assert batch[..|batch|] == batch;
  }

  /** Claims, publishes and rollbacks leave every event as it was. */
  lemma OthersChangeNoEvent(trace: seq<State>, actions: seq<Action>, n: nat)
    requires IsRun(trace, actions) && n < |actions| && !actions[n].Finish?
    ensures actions[n].Commit? ==>
      && actions[n].id !in trace[n].events
      && trace[n + 1].events == trace[n].events[actions[n].id := Event(actions[n].createdAt, false, 0)]
    ensures !actions[n].Commit? ==> trace[n + 1].events == trace[n].events
  {
  }

  /** So a drain that commits, however it overlapped with others, has done to the
      events what the program does alone. */
  lemma FinishIsADrain(events: Table, d: Drain, batch: seq<EventId>)
    requires NoDuplicates(batch) && (forall e :: e in batch ==> e in events)
    requires d.sent !! d.missed && forall e :: e in batch <==> e in d.sent || e in d.missed
    ensures var ok := (e: EventId) => e in d.sent;
      Settled(events, d) == Marked(Failed(events, batch, |batch|, ok), Sent(batch, |batch|, ok))
  {
    var ok := (e: EventId) => e in d.sent;
    var after := Marked(Failed(events, batch, |batch|, ok), Sent(batch, |batch|, ok));
    forall e | e in events ensures after[e] == Settled(events, d)[e] { DrainOutcome(events, batch, ok, e); }
  }
}
