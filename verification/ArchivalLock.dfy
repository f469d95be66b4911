/** The per-region archival lock (src/lib/jobs/archival-lock.ts) and the
    keep-alive that renews it (LockKeepAlive in archival.worker.ts): a Redis key
    set with SET PX NX, extended and deleted by compare-then-act scripts. */
module ArchivalLock {
  import opened Prelude

  type Token = nat

  datatype Lease = Lease(token: Token, expiresAt: int)

  /** What GET returns: nothing once the time to live has passed. */
  function Holder(key: Option<Lease>, now: int): Option<Token> {
    if key.Some? && now < key.value.expiresAt then Some(key.value.token) else None
  }

  function Acquired(key: Option<Lease>, token: Token, ttl: nat, now: int): Option<Lease> {
    if Holder(key, now).None? then Some(Lease(token, now + ttl)) else key
  }

  function Renewed(key: Option<Lease>, token: Token, ttl: nat, now: int): Option<Lease> {
    if Holder(key, now) == Some(token) then Some(Lease(token, now + ttl)) else key
  }

  function Released(key: Option<Lease>, token: Token, now: int): Option<Lease> {
    if Holder(key, now) == Some(token) then None else key
  }

  predicate Holds(lease: Lease, token: Token, now: int) {
    lease.token == token && now < lease.expiresAt
  }

  class RedisLock {
    var key: Option<Lease>

    constructor ()
      ensures key == None
    {
      key := None;
    }

    method Acquire(token: Token, ttl: nat, now: int) returns (ok: bool)
      modifies this
      ensures ok == Holder(old(key), now).None? == (old(key).None? || old(key).value.expiresAt <= now)
      ensures key == Acquired(old(key), token, ttl, now) == if ok then Some(Lease(token, now + ttl)) else old(key)
    {
      ok := key.None? || key.value.expiresAt <= now;
      if ok { key := Some(Lease(token, now + ttl)); }
    }

    method Renew(token: Token, ttl: nat, now: int) returns (ok: bool)
      modifies this
      ensures ok == (Holder(old(key), now) == Some(token)) == (old(key).Some? && Holds(old(key).value, token, now))
      ensures key == Renewed(old(key), token, ttl, now) == if ok then Some(Lease(token, now + ttl)) else old(key)
    {
      ok := key.Some? && now < key.value.expiresAt && key.value.token == token;
      if ok { key := Some(key.value.(expiresAt := now + ttl)); }
    }

    method Release(token: Token, now: int) returns (ok: bool)
      modifies this
      ensures ok == (Holder(old(key), now) == Some(token)) == (old(key).Some? && Holds(old(key).value, token, now))
      ensures key == Released(old(key), token, now) == if ok then None else old(key)
    {
      ok := key.Some? && now < key.value.expiresAt && key.value.token == token;
      if ok { key := None; }
    }
  }

  /** Due once a third of the time to live has passed since the last renewal. */
  predicate RenewalDue(lastRenewAt: int, ttl: nat, now: int) {
    3 * (now - lastRenewAt) >= ttl
  }

  class LockKeepAlive {
    const redis: RedisLock
    const token: Token
    const ttl: nat
    var lastRenewAt: int

    constructor (redis: RedisLock, token: Token, ttl: nat, now: int)
      ensures this.redis == redis && this.token == token && this.ttl == ttl && lastRenewAt == now
    {
      this.redis := redis;
      this.token := token;
      this.ttl := ttl;
      lastRenewAt := now;
    }

    /** The answer of the renewal is not looked at: lastRenewAt moves on even when
        the lock had already gone. */
    method MaybeRenew(now: int)
      modifies this, redis
      ensures !RenewalDue(old(lastRenewAt), ttl, now) ==>
                lastRenewAt == old(lastRenewAt) && redis.key == old(redis.key)
      ensures RenewalDue(old(lastRenewAt), ttl, now) ==>
                lastRenewAt == now && redis.key == Renewed(old(redis.key), token, ttl, now)
    {
      if 3 * (now - lastRenewAt) < ttl { return; }
      var _ := redis.Renew(token, ttl, now);
      lastRenewAt := now;
    }
  }

  // ---- many runs over one key ----------------------------------------------

  /** lastRenewAt: the keep-alive's field
      lastCall:    its latest call of maybeRenew (its start, before the first) */
  datatype Run = Running(lastRenewAt: int, lastCall: int) | Over

  datatype State = State(key: Option<Lease>, now: int, ttl: nat, runs: map<Token, Run>)

  datatype Action =
    | Tick(elapsed: nat)
    | Start(token: Token)       // runArchivalOnce: acquire, or skip the run
    | Renew(token: Token)       // maybeRenew after a batch
    | Stop(token: Token)        // the finally block
    | Crash(token: Token)       // killed: the key stays until it expires

  /** uuid tokens are never reused. */
  predicate Enabled(s: State, a: Action) {
    match a
    case Tick(_) => true
    case Start(token) => token !in s.runs
    case Renew(token) => token in s.runs && s.runs[token].Running?
    case Stop(token) => token in s.runs && s.runs[token].Running?
    case Crash(token) => token in s.runs && s.runs[token].Running?
  }

  function Applied(s: State, a: Action): State
    requires Enabled(s, a)
  {
    match a
    case Tick(elapsed) => s.(now := s.now + elapsed)
    case Start(token) =>
      var won := Holder(s.key, s.now).None?;
      s.(key := Acquired(s.key, token, s.ttl, s.now),
         runs := s.runs[token := if won then Running(s.now, s.now) else Over])
    case Renew(token) =>
      if RenewalDue(s.runs[token].lastRenewAt, s.ttl, s.now)
      then s.(key := Renewed(s.key, token, s.ttl, s.now), runs := s.runs[token := Running(s.now, s.now)])
      else s.(runs := s.runs[token := s.runs[token].(lastCall := s.now)])
    case Stop(token) => s.(key := Released(s.key, token, s.now), runs := s.runs[token := Over])
    case Crash(token) => s.(runs := s.runs[token := Over])
  }

  ghost predicate IsRun(trace: seq<State>, actions: seq<Action>) {
    && |trace| == |actions| + 1
    && trace[0].runs == map[] && trace[0].key == None
    && forall n {:trigger actions[n]} | 0 <= n < |actions| :: Enabled(trace[n], actions[n]) && trace[n + 1] == Applied(trace[n], actions[n])
  }

  /** No running run has gone longer than gap without a call of maybeRenew. */
  predicate Timely(s: State, gap: nat) {
    forall t :: t in s.runs && s.runs[t].Running? ==> s.now - s.runs[t].lastCall <= gap
  }

  /** The longest gap that is safe: a call just before a third of the time to live does
      not renew, so what is left after it is all there is. */
  function SafeGap(ttl: nat): int
    requires ttl >= 1
  {
    ttl - (ttl - 1) / 3 - 1
  }

  /** A stale token, or any other token, never touches the lock of its holder:
      only the holder itself and the clock can end or move a live lease. */
  lemma OnlyTheHolderTouchesItsLock(s: State, a: Action, holder: Token)
    requires Enabled(s, a) && Holder(s.key, s.now) == Some(holder)
    requires a.Tick? || a.token != holder
    ensures Applied(s, a).key == s.key
  {
  }

  /** While calls are timely: a running run's lease is the key, and expires a full time
      to live after its last renewal, which its last call came less than a third after. */
  ghost predicate Inv(s: State) {
    && s.ttl >= 1
    && (s.key.Some? ==> s.key.value.token in s.runs)
    && forall t :: t in s.runs && s.runs[t].Running? ==>
         && s.key.Some? && s.key.value.token == t
         && s.key.value.expiresAt == s.runs[t].lastRenewAt + s.ttl
         && 3 * (s.runs[t].lastCall - s.runs[t].lastRenewAt) < s.ttl
         && s.runs[t].lastRenewAt <= s.runs[t].lastCall <= s.now
  }

  lemma TimelyStep(s: State, a: Action, gap: nat)
    requires Inv(s) && Enabled(s, a) && Timely(s, gap) && gap <= SafeGap(s.ttl)
    ensures Inv(Applied(s, a)) && Applied(s, a).ttl == s.ttl
  {
  }

  lemma {:induction false} LeaseFollowsKeepAlive(trace: seq<State>, actions: seq<Action>, n: nat, gap: nat)
    requires IsRun(trace, actions) && n < |trace| && trace[0].ttl >= 1 && gap <= SafeGap(trace[0].ttl)
    requires forall m | 0 <= m < n :: Timely(trace[m], gap)
    ensures Inv(trace[n]) && trace[n].ttl == trace[0].ttl
  {
    if n > 0 {
      LeaseFollowsKeepAlive(trace, actions, n - 1, gap);
      assert Enabled(trace[n - 1], actions[n - 1]);
      TimelyStep(trace[n - 1], actions[n - 1], gap);
    }
  }

  /** If no run ever goes longer than the safe gap without a call of maybeRenew, a
      running archival run holds the lock at every moment, so at most one run is in
      progress and nobody else can start one. */
  lemma MutualExclusion(trace: seq<State>, actions: seq<Action>, n: nat, t: Token, gap: nat)
    requires IsRun(trace, actions) && n < |trace| && trace[0].ttl >= 1 && gap <= SafeGap(trace[0].ttl)
    requires forall m | 0 <= m <= n :: Timely(trace[m], gap)
    requires t in trace[n].runs && trace[n].runs[t].Running?
    ensures Holder(trace[n].key, trace[n].now) == Some(t)
    ensures forall u :: u in trace[n].runs && trace[n].runs[u].Running? ==> u == t
    ensures forall u :: u !in trace[n].runs ==> Applied(trace[n], Start(u)).runs[u] == Over
  {
    LeaseFollowsKeepAlive(trace, actions, n, gap);
    var s := trace[n];
    assert Timely(s, gap);
  }

  /** A run that stops frees the lock at once; one that is killed keeps everybody out
      until its lease expires, a time to live after its last renewal, and no longer. */
  lemma StopFreesTheLock(trace: seq<State>, actions: seq<Action>, n: nat, t: Token, u: Token, gap: nat, later: nat)
    requires IsRun(trace, actions) && n < |trace| && trace[0].ttl >= 1 && gap <= SafeGap(trace[0].ttl)
    requires forall m | 0 <= m <= n :: Timely(trace[m], gap)
    requires t in trace[n].runs && trace[n].runs[t].Running? && u !in trace[n].runs
    ensures Applied(trace[n], Stop(t)).key == None
    ensures Applied(Applied(trace[n], Stop(t)), Start(u)).runs[u].Running?
    ensures var s := Applied(Applied(trace[n], Crash(t)), Tick(later));
      Applied(s, Start(u)).runs[u].Running? <==> s.now >= trace[n].runs[t].lastRenewAt + trace[0].ttl
  {
    LeaseFollowsKeepAlive(trace, actions, n, gap);
    assert Timely(trace[n], gap);
  }

  /** A history with this time to live in which calls are at most gap apart. */
  ghost predicate Paced(ttl: nat, gap: nat, trace: seq<State>, actions: seq<Action>) {
    IsRun(trace, actions) && trace[0].ttl == ttl && forall m | 0 <= m < |trace| :: Timely(trace[m], gap)
  }

  ghost predicate TwoAtOnce(s: State) {
    exists t, u :: t in s.runs && u in s.runs && t != u && s.runs[t].Running? && s.runs[u].Running?
  }

  /** The lock lets one run in at a time, whatever happens. */
  ghost predicate Exclusive(ttl: nat, gap: nat) {
    forall trace, actions, n ::
      Paced(ttl, gap, trace, actions) && 0 <= n < |trace| ==> !TwoAtOnce(trace[n])
  }

  /** One run calls just before a third of the time to live and then not for longer
      than the safe gap; a second run starts meanwhile. */
  lemma SecondRunStarts(ttl: nat, gap: nat) returns (trace: seq<State>, actions: seq<Action>)
    requires ttl >= 1 && gap > SafeGap(ttl)
    ensures Paced(ttl, gap, trace, actions) && TwoAtOnce(trace[|trace| - 1])
  {
    var before := (ttl - 1) / 3;
    var s0 := State(None, 0, ttl, map[]);
    var s1 := Applied(s0, Start(1));
    var s2 := Applied(s1, Tick(before));
    var s3 := Applied(s2, Renew(1));
    var s4 := Applied(s3, Tick(ttl - before));
    var s5 := Applied(s4, Start(2));
    trace := [s0, s1, s2, s3, s4, s5];
    actions := [Start(1), Tick(before), Renew(1), Tick(ttl - before), Start(2)];
    assert s5.runs[1] == Running(0, before) && s5.runs[2].Running?;
  }

  /** At most one run at a time: exactly when maybeRenew is never called more than
      ttl - floor((ttl - 1) / 3) - 1 apart, two thirds of the time to live when that
      is a multiple of three. */
  lemma ExclusiveIff(ttl: nat, gap: nat)
    requires ttl >= 1
    ensures Exclusive(ttl, gap) <==> gap <= SafeGap(ttl)
    ensures ttl % 3 == 0 ==> 3 * SafeGap(ttl) == 2 * ttl
  {
    if gap <= SafeGap(ttl) {
      forall trace, actions, n | Paced(ttl, gap, trace, actions) && 0 <= n < |trace| ensures !TwoAtOnce(trace[n]) {
        LeaseFollowsKeepAlive(trace, actions, n, gap);
      }
    } else {
      var trace, actions := SecondRunStarts(ttl, gap);
      assert Paced(ttl, gap, trace, actions) && TwoAtOnce(trace[|trace| - 1]);
    }
  }
}
