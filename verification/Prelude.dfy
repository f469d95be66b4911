/** Small shared vocabulary: an optional value, an error-carrying result, and
    the "first n by id" selections that stand for SQL's ORDER BY id LIMIT n. */
module Prelude {

  datatype Option<+T> = None | Some(value: T)

  datatype Result<+T, +E> = Ok(value: T) | Err(error: E)

  /** What a JavaScript Date keeps of a TIMESTAMP, which PostgreSQL holds in
      microseconds: the whole milliseconds. */
  function Ms(at: int): int {
    at / 1000
  }

  function Least(s: set<nat>): (m: nat)
    requires s != {}
    ensures m in s && forall x :: x in s ==> m <= x
  {
    LeastExists(s);
    var m :| IsLeast(m, s);
    m
  }

  predicate IsLeast(m: nat, s: set<nat>) {
    m in s && forall x :: x in s ==> m <= x
  }

  lemma {:induction false} LeastExists(s: set<nat>)
    requires s != {}
    ensures exists m :: IsLeast(m, s)
  {
    var y :| y in s;
    var beyond := set x | x in s && x < y;
    if beyond == {} {
      assert forall x :: x in s ==> x !in beyond;
      assert IsLeast(y, s);
    } else {
      assert y !in beyond && beyond < s;
      LeastExists(beyond);
      var m :| IsLeast(m, beyond);
      forall x | x in s ensures m <= x {
        if x !in beyond { assert m < y <= x; }
      }
      assert IsLeast(m, s);
    }
  }

  function Greatest(s: set<nat>): (m: nat)
    requires s != {}
    ensures m in s && forall x :: x in s ==> x <= m
  {
    GreatestExists(s);
    var m :| IsGreatest(m, s);
    m
  }

  predicate IsGreatest(m: nat, s: set<nat>) {
    m in s && forall x :: x in s ==> x <= m
  }

  lemma {:induction false} GreatestExists(s: set<nat>)
    requires s != {}
    ensures exists m :: IsGreatest(m, s)
  {
    var y :| y in s;
    var beyond := set x | x in s && x > y;
    if beyond == {} {
      assert forall x :: x in s ==> x !in beyond;
      assert IsGreatest(y, s);
    } else {
      assert y !in beyond && beyond < s;
      GreatestExists(beyond);
      var m :| IsGreatest(m, beyond);
      forall x | x in s ensures x <= m {
        if x !in beyond { assert x <= y < m; }
      }
      assert IsGreatest(m, s);
    }
  }

  /** ORDER BY id ASC LIMIT n. */
  function Smallest(pool: set<nat>, n: nat): set<nat> {
    if n == 0 || pool == {} then {}
    else var m := Least(pool); {m} + Smallest(pool - {m}, n - 1)
  }

  /** ORDER BY id DESC LIMIT n. */
  function Largest(pool: set<nat>, n: nat): set<nat> {
    if n == 0 || pool == {} then {}
    else var m := Greatest(pool); {m} + Largest(pool - {m}, n - 1)
  }

  lemma {:induction false} SmallestAreFirst(pool: set<nat>, n: nat)
    ensures var ids := Smallest(pool, n);
      && ids <= pool
      && |ids| == (if |pool| < n then |pool| else n)
      && forall a, b :: a in ids && b in pool && b !in ids ==> a < b
  {
    if n > 0 && pool != {} { SmallestAreFirst(pool - {Least(pool)}, n - 1); }
  }

  lemma {:induction false} LargestAreLast(pool: set<nat>, n: nat)
    ensures var ids := Largest(pool, n);
      && ids <= pool
      && |ids| == (if |pool| < n then |pool| else n)
      && forall a, b :: a in ids && b in pool && b !in ids ==> b < a
  {
    if n > 0 && pool != {} { LargestAreLast(pool - {Greatest(pool)}, n - 1); }
  }

  /** A LIMIT that was not reached, or reached exactly, took everything. */
  lemma FullSelection(part: set<nat>, pool: set<nat>)
    requires part <= pool && |pool| <= |part|
    ensures part == pool
  {
    assert pool == part + (pool - part);
  }
}
