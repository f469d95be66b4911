/** Runs of the archival protocol written down action by action. */
module ArchivalRuns {
  import opened Prelude
  import opened ArchivalTables
  import opened ArchivalBatches
  import opened ArchivalProtocol

  ghost predicate CanPlay(c: Config, s: State, actions: seq<Action>)
    decreases |actions|
  {
    actions == [] || (Calm(c, s, actions[0]) && CanPlay(c, Applied(c, s, actions[0]), actions[1..]))
  }

  ghost function Play(c: Config, s: State, actions: seq<Action>): seq<State>
    requires CanPlay(c, s, actions)
    decreases |actions|
  {
    [s] + if actions == [] then [] else Play(c, Applied(c, s, actions[0]), actions[1..])
  }

  ghost function End(c: Config, s: State, actions: seq<Action>): State
    requires CanPlay(c, s, actions)
    decreases |actions|
  {
    if actions == [] then s else End(c, Applied(c, s, actions[0]), actions[1..])
  }

  lemma {:induction false} PlayOn(c: Config, s: State, first: seq<Action>, then_: seq<Action>)
    requires CanPlay(c, s, first) && CanPlay(c, End(c, s, first), then_)
    ensures CanPlay(c, s, first + then_) && End(c, s, first + then_) == End(c, End(c, s, first), then_)
    decreases |first|
  {
    if first == [] {
      assert first + then_ == then_;
    } else {
      assert (first + then_)[1..] == first[1..] + then_;
      PlayOn(c, Applied(c, s, first[0]), first[1..], then_);
    }
  }

  lemma PlayOne(c: Config, s: State, a: Action)
    requires Calm(c, s, a)
    ensures CanPlay(c, s, [a]) && End(c, s, [a]) == Applied(c, s, a)
  {
    assert CanPlay(c, Applied(c, s, a), [a][1..]);
  }

  lemma {:induction false} PlayIsStepwise(c: Config, s: State, actions: seq<Action>)
    requires CanPlay(c, s, actions)
    ensures var trace := Play(c, s, actions);
      && |trace| == |actions| + 1 && trace[0] == s
      && forall n {:trigger actions[n]} | 0 <= n < |actions| ::
           Calm(c, trace[n], actions[n]) && trace[n + 1] == Applied(c, trace[n], actions[n])
    decreases |actions|
  {
    if actions != [] {
      PlayIsStepwise(c, Applied(c, s, actions[0]), actions[1..]);
      var rest, trace := Play(c, Applied(c, s, actions[0]), actions[1..]), Play(c, s, actions);
      assert forall n :: 0 <= n < |rest| ==> trace[n + 1] == rest[n];
      forall n | 0 <= n < |actions|
        ensures Calm(c, trace[n], actions[n]) && trace[n + 1] == Applied(c, trace[n], actions[n])
      {
        if n > 0 { assert trace[n] == rest[n - 1] && actions[n] == actions[1..][n - 1]; }
      }
    }
  }

  /** Where the run stands after its first part, and at its end. */
  lemma {:induction false} PlayPasses(c: Config, s: State, first: seq<Action>, then_: seq<Action>)
    requires CanPlay(c, s, first) && CanPlay(c, s, first + then_)
    ensures |Play(c, s, first + then_)| == |first| + |then_| + 1
    ensures Play(c, s, first + then_)[|first|] == End(c, s, first)
    decreases |first|
  {
    PlayIsStepwise(c, s, first + then_);
    if first != [] {
      assert (first + then_)[1..] == first[1..] + then_;
      PlayPasses(c, Applied(c, s, first[0]), first[1..], then_);
    }
  }

  lemma PlayIsRun(c: Config, s: State, actions: seq<Action>)
    requires Initial(c, s) && CanPlay(c, s, actions)
    ensures IsRun(c, Play(c, s, actions), actions)
    ensures Play(c, s, actions)[0] == s && Play(c, s, actions)[|actions|] == End(c, s, actions)
  {
    PlayIsStepwise(c, s, actions);
    assert actions + [] == actions;
    PlayPasses(c, s, actions, []);
  }

  // ---- a worker on its own with nothing to do -----------------------------------

  ghost predicate OnlyAdvances(actions: seq<Action>, id: nat) {
    forall n :: 0 <= n < |actions| ==> actions[n] == Advance(id)
  }

  /** The same databases and clock, the same run at another control point. */
  ghost predicate MovedTo(s: State, s': State, id: nat, pc: Pc) {
    && id in s.workers && id in s'.workers
    && s'.hot == s.hot && s'.archive == s.archive && s'.now == s.now
    && s'.workers[id].pc == pc && s'.workers[id].launched == s.workers[id].launched
    && s'.workers[id].deadline == s.workers[id].deadline && s'.workers[id].cut == s.workers[id].cut
  }

  lemma OneAdvance(c: Config, s: State, id: nat)
    requires id in s.workers
    ensures CanPlay(c, s, [Advance(id)]) && End(c, s, [Advance(id)]) == Stepped(c, s, id)
  {
    PlayOne(c, s, Advance(id));
  }

  lemma ThreeAdvances(c: Config, s: State, id: nat) returns (actions: seq<Action>)
    requires id in s.workers
    requires id in Stepped(c, s, id).workers && id in Stepped(c, Stepped(c, s, id), id).workers
    ensures OnlyAdvances(actions, id) && CanPlay(c, s, actions)
    ensures End(c, s, actions) == Stepped(c, Stepped(c, Stepped(c, s, id), id), id)
  {
    var a := [Advance(id)];
    var s1 := Stepped(c, s, id);
    var s2 := Stepped(c, s1, id);
    OneAdvance(c, s, id);
    OneAdvance(c, s1, id);
    OneAdvance(c, s2, id);
    PlayOn(c, s1, a, a);
    PlayOn(c, s, a, a + a);
    actions := a + (a + a);
  }

  lemma {:induction false} NothingToCopy(c: Config, s: State, id: nat, i: nat) returns (actions: seq<Action>)
    requires id in s.workers && s.workers[id].pc == ForInsert(i) && i <= TABLES && s.now < s.workers[id].deadline
    requires EligibleRows(s.hot, c.yearStart(s.now)) == map[]
    ensures OnlyAdvances(actions, id) && CanPlay(c, s, actions)
    ensures MovedTo(s, End(c, s, actions), id, ForInsert(TABLES))
    decreases TABLES - i
  {
    if i == TABLES { return []; }
    NothingSelected(c, s.hot, InsertTable(i), c.yearStart(s.now));
    var three := ThreeAdvances(c, s, id);
    var s' := End(c, s, three);
    assert MovedTo(s, s', id, ForInsert(i + 1));
    var rest := NothingToCopy(c, s', id, i + 1);
    PlayOn(c, s, three, rest);
    actions := three + rest;
  }

  lemma NothingSelected(c: Config, hot: Db, t: Table, y: int)
    requires EligibleRows(hot, y) == map[]
    ensures |NextRows(hot, t, y, 0, c.batch)| == 0 && NextIds(hot, t, y, c.batch) == {}
  {
    EligibleIdsAre(hot, t, y);
    assert forall k :: k in hot ==> !Eligible(hot, k, y) by {
      assert forall k :: k in hot && Eligible(hot, k, y) ==> k in EligibleRows(hot, y);
    }
    assert EligibleIds(hot, t, y) == {};
    NextRowsIds(hot, t, y, 0, c.batch);
  }

  lemma {:induction false} NothingToDelete(c: Config, s: State, id: nat, j: nat, last: nat) returns (actions: seq<Action>)
    requires id in s.workers && s.workers[id].pc == ForDelete(j) && j <= last < TABLES && s.now < s.workers[id].deadline
    requires EligibleRows(s.hot, c.yearStart(s.now)) == map[]
    ensures OnlyAdvances(actions, id) && CanPlay(c, s, actions)
    ensures MovedTo(s, End(c, s, actions), id, ForDelete(last))
    decreases last - j
  {
    if j == last { return []; }
    NothingSelected(c, s.hot, DeleteTable(j), c.yearStart(s.now));
    var three := ThreeAdvances(c, s, id);
    var s' := End(c, s, three);
    assert MovedTo(s, s', id, ForDelete(j + 1));
    var rest := NothingToDelete(c, s', id, j + 1, last);
    PlayOn(c, s, three, rest);
    actions := three + rest;
  }
}
