/** The candidate scan of src/lib/presence/presence-store.ts: agents by distance,
    busy ones dropped. */
module Presence {
  import opened Sorting

  type Agent = nat

  predicate Distinct(agents: seq<Agent>) {
    forall i, j :: 0 <= i < j < |agents| ==> agents[i] != agents[j]
  }

  function NotIn(busy: set<Agent>): Agent -> bool {
    a => a !in busy
  }

  /** The first `limit` agents that are not busy. */
  function Free(near: seq<Agent>, busy: set<Agent>, limit: nat): seq<Agent> {
    Take(Filter(near, NotIn(busy)), limit)
  }

  lemma {:induction false} BusyAreFew(near: seq<Agent>, busy: set<Agent>)
    requires Distinct(near)
    ensures |near| <= |Filter(near, NotIn(busy))| + |busy|
  {
    if near != [] {
      var head, tail := near[0], near[1..];
      if head in busy {
        BusyAreFew(tail, busy - {head});
        SameOutside(tail, busy, head);
      } else {
        BusyAreFew(tail, busy);
      }
    }
  }

  lemma {:induction false} SameOutside(agents: seq<Agent>, busy: set<Agent>, a: Agent)
    requires a !in agents
    ensures Filter(agents, NotIn(busy - {a})) == Filter(agents, NotIn(busy))
  {
    if agents != [] { SameOutside(agents[1..], busy, a); }
  }

  /** Over-fetching by the number of busy agents is enough. */
  lemma OverFetchIsExact(near: seq<Agent>, busy: set<Agent>, limit: nat)
    requires Distinct(near)
    ensures Free(Take(near, limit + |busy|), busy, limit) == Free(near, busy, limit)
  {
    var n := limit + |busy|;
    if |near| > n {
      BusyAreFew(near[..n], busy);
      assert near == near[..n] + near[n..];
      FilterAppend(near[..n], near[n..], NotIn(busy));
    }
  }

  /** near is what GEOSEARCH has in the radius, nearest first; it returns `count`. */
  method FindNearbyOnlineAgents(near: seq<Agent>, busy: set<Agent>, limit: nat) returns (candidates: seq<Agent>)
    requires Distinct(near) && limit >= 1
    ensures candidates == Free(near, busy, limit)
  {
    var raw := Take(near, limit + |busy|);
    OverFetchIsExact(near, busy, limit);
    candidates := [];
    var i := 0;
    while i < |raw|
      invariant 0 <= i <= |raw| && |candidates| < limit
      invariant candidates == Filter(raw[..i], NotIn(busy))
    {
      assert raw[..i + 1] == raw[..i] + [raw[i]];
      FilterAppend(raw[..i], [raw[i]], NotIn(busy));
      if raw[i] in busy {
        i := i + 1;
        continue;
      }
      candidates := candidates + [raw[i]];
      i := i + 1;
      if |candidates| >= limit {
        assert raw == raw[..i] + raw[i..];
        FilterAppend(raw[..i], raw[i..], NotIn(busy));
        return;
      }
    }
    assert raw[..i] == raw;
  }
}
