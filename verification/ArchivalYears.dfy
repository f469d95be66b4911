/** Which budgets are safe around 1 January: the exact condition under which the
    nightly archival loses nothing. */
module ArchivalYears {
  import opened Prelude
  import opened ArchivalTables
  import opened ArchivalBatches
  import opened ArchivalProtocol
  import opened ArchivalRuns
  import Theorems = ArchivalTheorems

  /** Every run is launched at this reading of the clock with this budget. */
  ghost predicate LaunchedAt(now: int, budget: nat, trace: seq<State>, actions: seq<Action>) {
    |trace| == |actions| + 1 &&
    forall n :: 0 <= n < |actions| && actions[n].Launch? ==> trace[n].now == now && actions[n].budget == budget
  }

  ghost predicate NeverLoses(c: Config, now: int, budget: nat) {
    forall trace, actions :: IsRun(c, trace, actions) && LaunchedAt(now, budget, trace, actions) ==> NothingLost(c, trace)
  }

  /** A budget is safe, whatever the data, the interleaving and the kills, exactly
      when the year at the last moment before the deadline is the year of the launch.
      A caller can check that before the run. */
  lemma BudgetIsSafeIff(c: Config, now: int, budget: nat)
    requires Calendar(c)
    ensures InOneYear(c, now, now + budget) <==> NeverLoses(c, now, budget)
  {
    if InOneYear(c, now, now + budget) {
      forall trace, actions | IsRun(c, trace, actions) && LaunchedAt(now, budget, trace, actions)
        ensures NothingLost(c, trace)
      {
        Theorems.NoRowIsEverLost(c, trace, actions);
      }
    } else {
      var trace, actions := LosingRun(c, now, budget);
    }
  }

  // ---- the run that loses a row ----------------------------------------------

  const EVENT: Key := Key(WebhookEvents, 1)

  /** One webhook event, received in the year of the launch. */
  function OneEvent(received: int): Db {
    map[EVENT := Row(received, None, None, None, [], "")]
  }

  lemma OneEventFacts(received: int, y: int)
    ensures ForeignKeysHold(OneEvent(received)) && SameFamily(OneEvent(received)) && DeliveriesPointDown(OneEvent(received))
    ensures EligibleRows(OneEvent(received), y) == if received < y then OneEvent(received) else map[]
  {
  }

  function Fresh(received: int, now: int): State {
    State(OneEvent(received), map[], now, map[])
  }

  const EVENTS: Pass := 2

  /** The worker has copied every table of the old year and deleted from the tables
      before the webhook events. */
  lemma UpToTheEvents(c: Config, now: int, budget: nat) returns (actions: seq<Action>)
    requires Calendar(c) && budget > 0
    ensures actions != [] && actions[0] == Launch(0, budget) && OnlyAdvances(actions[1..], 0)
    ensures var s := Fresh(c.yearStart(now), now);
      && CanPlay(c, s, actions)
      && var s' := End(c, s, actions);
         && s'.hot == s.hot && s'.archive == s.archive && s'.now == s.now && 0 in s'.workers
         && s'.workers[0].pc == ForDelete(EVENTS) && s'.workers[0].deadline == now + budget
  {
    var s := Fresh(c.yearStart(now), now);
    OneEventFacts(c.yearStart(now), c.yearStart(now));
    var launch := Launch(0, budget);
    PlayOne(c, s, launch);
    var s1 := Applied(c, s, launch);
    var copy := NothingToCopy(c, s1, 0, 0);
    var s2 := End(c, s1, copy);
    OneAdvance(c, s2, 0);
    var s3 := Stepped(c, s2, 0);
    var clear := NothingToDelete(c, s3, 0, 0, EVENTS);
    PlayOn(c, s2, [Advance(0)], clear);
    PlayOn(c, s1, copy, [Advance(0)] + clear);
    PlayOn(c, s, [launch], copy + ([Advance(0)] + clear));
    actions := [launch] + (copy + ([Advance(0)] + clear));
    assert actions[1..] == copy + ([Advance(0)] + clear);
  }

  /** In the new year the worker selects and deletes the event. */
  lemma DeletesTheEvent(c: Config, s: State, received: int) returns (actions: seq<Action>)
    requires c.batch > 0 && s.hot == OneEvent(received) && s.archive == map[] && 0 in s.workers
    requires s.workers[0].pc == ForDelete(EVENTS) && s.now < s.workers[0].deadline
    requires received < c.yearStart(s.now)
    ensures OnlyAdvances(actions, 0) && CanPlay(c, s, actions)
    ensures EVENT !in End(c, s, actions).hot && EVENT !in End(c, s, actions).archive
  {
    var y := c.yearStart(s.now);
    EventIsSelected(received, y, c.batch);
    var three := ThreeAdvances(c, s, 0);
    var s3 := End(c, s, three);
    assert s3.workers[0].pc == DeleteWrite(EVENTS, NextIds(s.hot, WebhookEvents, y, c.batch));
    EventIsDeletable(received, NextIds(s.hot, WebhookEvents, y, c.batch));
    OneAdvance(c, s3, 0);
    PlayOn(c, s, three, [Advance(0)]);
    actions := three + [Advance(0)];
  }

  lemma EventIsSelected(received: int, y: int, size: nat)
    requires received < y && size > 0
    ensures 1 in NextIds(OneEvent(received), WebhookEvents, y, size)
  {
    var hot := OneEvent(received);
    NextIdsAreLast(hot, WebhookEvents, y, size);
    var ids := NextIds(hot, WebhookEvents, y, size);
    assert EligibleIn(hot, WebhookEvents, y, EVENT);
    if |ids| >= size { var i :| i in ids; }
  }

  lemma EventIsDeletable(received: int, ids: set<nat>)
    requires 1 in ids
    ensures var ks := KeysOf(WebhookEvents, ids);
      DeleteAccepted(OneEvent(received), ks) && EVENT !in DeleteRows(OneEvent(received), ks)
  {
  }

  /** One nightly run, launched in one year with a budget into the next. */
  lemma LosingRun(c: Config, now: int, budget: nat) returns (trace: seq<State>, actions: seq<Action>)
    requires Calendar(c) && !InOneYear(c, now, now + budget)
    ensures IsRun(c, trace, actions) && LaunchedAt(now, budget, trace, actions) && !NothingLost(c, trace)
  {
    var received := c.yearStart(now);
    var s := Fresh(received, now);
    OneEventFacts(received, received);
    var first := UpToTheEvents(c, now, budget);
    var s1 := End(c, s, first);
    var tick := Tick(budget - 1);
    PlayOne(c, s1, tick);
    var s2 := Applied(c, s1, tick);
    PlayOn(c, s, first, [tick]);
    var before := first + [tick];
    var after := DeletesTheEvent(c, s2, received);
    PlayOn(c, s, before, after);
    actions := before + after;
    PlayIsRun(c, s, actions);
    trace := Play(c, s, actions);
    PlayPasses(c, s, before, after);
    OnlyTheFirstLaunches(first, tick, after);
    LostBetween(c, trace, |before|, |actions|);
  }

  lemma OnlyTheFirstLaunches(first: seq<Action>, tick: Action, after: seq<Action>)
    requires first != [] && OnlyAdvances(first[1..], 0) && tick.Tick? && OnlyAdvances(after, 0)
    ensures var actions := first + [tick] + after;
      actions[0] == first[0] && forall n :: 0 < n < |actions| ==> !actions[n].Launch?
  {
    var actions := first + [tick] + after;
    forall n | 0 < n < |actions| ensures !actions[n].Launch? {
      if n < |first| { assert actions[n] == first[1..][n - 1]; }
      else if n > |first| { assert actions[n] == after[n - |first| - 1]; }
    }
  }

  lemma LostBetween(c: Config, trace: seq<State>, m: nat, n: nat)
    requires m <= n < |trace|
    requires EVENT in trace[m].hot && trace[m].hot[EVENT].stamp < c.yearStart(trace[m].now)
    requires EVENT !in trace[n].hot && EVENT !in trace[n].archive
    ensures !NothingLost(c, trace)
  {
    assert !Kept(EVENT, trace[m].hot[EVENT], trace[n]);
  }
}
