/** How batches of a fixed size cut a set of ids: upwards from the lowest id, as
    pass 1 of archival does, and downwards from the highest, as pass 2 does. */
module ArchivalSlots {
  import opened Prelude
  import opened ArchivalTables

  function Below(ids: set<nat>, i: nat): nat {
    |set t | t in ids && t < i|
  }

  function Above(ids: set<nat>, i: nat): nat {
    |set t | t in ids && t > i|
  }

  /** Which batch an id falls into, counted from the lowest id. */
  function Up(ids: set<nat>, batch: nat, i: nat): nat
    requires batch > 0
  {
    Below(ids, i) / batch
  }

  /** Which batch an id falls into, counted from the highest id. */
  function Down(ids: set<nat>, batch: nat, i: nat): nat
    requires batch > 0
  {
    Above(ids, i) / batch
  }

  // ---- arithmetic ------------------------------------------------------------

  lemma SameQuotient(m: nat, n: nat, b: nat)
    requires b > 0 && m % b == 0 && m <= n < m + b
    ensures n / b == m / b
  {
    var q := m / b;
    assert m == b * q;
    assert n == b * q + (n - m);
    QuotientIs(n, b, q, n - m);
  }

  lemma MultiplesInOrder(b: nat, p: int, q: int)
    ensures p < q ==> b * p + b <= b * q
    ensures p <= q ==> b * p <= b * q
  {
    assert b * (p + 1) == b * p + b;
    if p < q { Multiply(b, p + 1, q); }
    if p <= q { Multiply(b, p, q); }
  }

  lemma Multiply(b: nat, p: int, q: int)
    requires p <= q
    ensures b * p <= b * q
  {
  }

  lemma QuotientIs(n: nat, b: nat, q: nat, r: nat)
    requires b > 0 && n == b * q + r && r < b
    ensures n / b == q
  {
    var p := n / b;
    assert n == b * p + n % b;
    MultiplesInOrder(b, p, q);
    MultiplesInOrder(b, q, p);
  }

  lemma QuotientGrows(m: nat, n: nat, b: nat)
    requires b > 0 && m <= n
    ensures m / b <= n / b
  {
    assert m == b * (m / b) + m % b && n == b * (n / b) + n % b;
    MultiplesInOrder(b, n / b, m / b);
  }

  lemma QuotientBefore(m: nat, n: nat, b: nat)
    requires b > 0 && m % b == 0 && n < m
    ensures n / b < m / b
  {
    assert m == b * (m / b) && n == b * (n / b) + n % b;
    MultiplesInOrder(b, m / b, n / b);
  }

  lemma QuotientAfter(m: nat, n: nat, b: nat)
    requires b > 0 && m + b <= n
    ensures m / b < n / b
  {
    assert m == b * (m / b) + m % b && n == b * (n / b) + n % b;
    MultiplesInOrder(b, n / b, m / b);
  }

  lemma StepMeansMultiple(m: nat, b: nat)
    requires b > 0 && m > 0 && (m - 1) / b < m / b
    ensures m % b == 0
  {
    var q := m / b;
    assert m == b * q + m % b;
    if m % b > 0 { QuotientIs(m - 1, b, q, m % b - 1); }
  }

  lemma NextMultiple(m: nat, b: nat)
    requires b > 0 && m % b == 0
    ensures (m + b) % b == 0
  {
    var q := m / b;
    assert m + b == b * (q + 1);
    QuotientIs(m + b, b, q + 1, 0);
  }

  // ---- counting -----------------------------------------------------------------

  lemma SubsetSize(part: set<nat>, whole: set<nat>)
    requires part <= whole
    ensures |part| <= |whole|
    ensures (exists i :: i in whole && i !in part) ==> |part| < |whole|
  {
    assert whole == part + (whole - part);
    assert |whole| == |part| + |whole - part|;
  }

  /** Ids in order have counts in order. */
  lemma BelowGrows(ids: set<nat>, i: nat, j: nat)
    requires i < j
    ensures Below(ids, i) <= Below(ids, j) && (i in ids ==> Below(ids, i) < Below(ids, j))
  {
    var a, b := set t | t in ids && t < i, set t | t in ids && t < j;
    SubsetSize(a, b);
    if i in ids { assert i in b && i !in a; }
  }

  lemma AboveShrinks(ids: set<nat>, i: nat, j: nat)
    requires i < j
    ensures Above(ids, j) <= Above(ids, i) && (j in ids ==> Above(ids, j) < Above(ids, i))
  {
    var a, b := set t | t in ids && t > j, set t | t in ids && t > i;
    SubsetSize(a, b);
    if j in ids { assert j in b && j !in a; }
  }

  lemma UpGrows(ids: set<nat>, batch: nat, i: nat, j: nat)
    requires batch > 0 && i <= j
    ensures Up(ids, batch, i) <= Up(ids, batch, j)
  {
    if i < j { BelowGrows(ids, i, j); }
    QuotientGrows(Below(ids, i), Below(ids, j), batch);
  }

  lemma DownShrinks(ids: set<nat>, batch: nat, i: nat, j: nat)
    requires batch > 0 && i <= j
    ensures Down(ids, batch, j) <= Down(ids, batch, i)
  {
    if i < j { AboveShrinks(ids, i, j); }
    QuotientGrows(Above(ids, j), Above(ids, i), batch);
  }

  // ---- batches upwards -------------------------------------------------------------

  /** A whole number of batches lies up to the cursor. */
  predicate Aligned(ids: set<nat>, batch: nat, cursor: nat)
    requires batch > 0
  {
    Below(ids, cursor + 1) % batch == 0
  }

  /** Exactly the ids of one slot. */
  ghost predicate FillsUp(ids: set<nat>, batch: nat, some: set<nat>)
    requires batch > 0
  {
    && some <= ids
    && forall k, r :: k in some && r in ids ==> (Up(ids, batch, r) == Up(ids, batch, k) <==> r in some)
  }

  lemma BelowSelected(ids: set<nat>, cursor: nat, some: set<nat>, k: nat)
    requires some <= Beyond(ids, cursor) && k in some
    requires forall x, y :: x in some && y in Beyond(ids, cursor) && y !in some ==> x < y
    ensures Below(ids, cursor + 1) <= Below(ids, k) < Below(ids, cursor + 1) + |some|
  {
    var first := set t | t in ids && t < cursor + 1;
    var earlier := set t | t in some && t < k;
    assert (set t | t in ids && t < k) == first + earlier;
    assert first !! earlier;
    assert k in some && k !in earlier;
    SubsetSize(earlier, some);
  }

  lemma BelowRest(ids: set<nat>, cursor: nat, some: set<nat>, r: nat)
    requires some <= Beyond(ids, cursor) && r > cursor
    requires forall x :: x in some ==> x < r
    ensures Below(ids, r) >= Below(ids, cursor + 1) + |some|
  {
    var first := set t | t in ids && t < cursor + 1;
    assert first !! some;
    SubsetSize(first + some, set t | t in ids && t < r);
  }

  lemma RestIsLater(ids: set<nat>, batch: nat, cursor: nat, some: set<nat>, k: nat, r: nat)
    requires batch > 0 && Aligned(ids, batch, cursor) && some == Smallest(Beyond(ids, cursor), batch)
    requires k in some && r in ids && r !in some
    ensures Up(ids, batch, r) != Up(ids, batch, k)
  {
    var m := Below(ids, cursor + 1);
    SmallestAreFirst(Beyond(ids, cursor), batch);
    BelowSelected(ids, cursor, some, k);
    SameQuotient(m, Below(ids, k), batch);
    if r <= cursor {
      BelowGrows(ids, r, cursor + 1);
      QuotientBefore(m, Below(ids, r), batch);
    } else {
      if |some| < batch { FullSelection(some, Beyond(ids, cursor)); }
      BelowRest(ids, cursor, some, r);
      QuotientAfter(m, Below(ids, r), batch);
    }
  }

  /** The next batch past an aligned cursor is a slot. */
  lemma SelectedFillsUp(ids: set<nat>, batch: nat, cursor: nat)
    requires batch > 0 && Aligned(ids, batch, cursor)
    ensures FillsUp(ids, batch, Smallest(Beyond(ids, cursor), batch))
  {
    var some := Smallest(Beyond(ids, cursor), batch);
    SmallestAreFirst(Beyond(ids, cursor), batch);
    forall k, r | k in some && r in ids ensures Up(ids, batch, r) == Up(ids, batch, k) <==> r in some {
      if r in some {
        SameSlot(ids, batch, cursor, some, k);
        SameSlot(ids, batch, cursor, some, r);
      } else {
        RestIsLater(ids, batch, cursor, some, k, r);
      }
    }
  }

  lemma SameSlot(ids: set<nat>, batch: nat, cursor: nat, some: set<nat>, k: nat)
    requires batch > 0 && Aligned(ids, batch, cursor) && some == Smallest(Beyond(ids, cursor), batch) && k in some
    ensures Up(ids, batch, k) == Below(ids, cursor + 1) / batch
  {
    SmallestAreFirst(Beyond(ids, cursor), batch);
    BelowSelected(ids, cursor, some, k);
    SameQuotient(Below(ids, cursor + 1), Below(ids, k), batch);
  }

  /** A full batch leaves the cursor aligned. */
  lemma StaysAligned(ids: set<nat>, batch: nat, cursor: nat, last: nat)
    requires batch > 0 && Aligned(ids, batch, cursor)
    requires var some := Smallest(Beyond(ids, cursor), batch);
      last in some && (forall x :: x in some ==> x <= last) && |some| >= batch
    ensures Aligned(ids, batch, last)
  {
    var some := Smallest(Beyond(ids, cursor), batch);
    CountUpTo(ids, batch, cursor, last);
    NextMultiple(Below(ids, cursor + 1), batch);
  }

  lemma CountUpTo(ids: set<nat>, batch: nat, cursor: nat, last: nat)
    requires var some := Smallest(Beyond(ids, cursor), batch);
      last in some && (forall x :: x in some ==> x <= last) && |some| >= batch
    ensures Below(ids, last + 1) == Below(ids, cursor + 1) + batch
  {
    var some := Smallest(Beyond(ids, cursor), batch);
    SmallestAreFirst(Beyond(ids, cursor), batch);
    var first := set t | t in ids && t < cursor + 1;
    assert (set t | t in ids && t < last + 1) == first + some;
    assert first !! some;
  }

  lemma StartIsAligned(ids: set<nat>, batch: nat)
    requires batch > 0 && 0 !in ids
    ensures Aligned(ids, batch, 0)
  {
    assert (set t | t in ids && t < 1) == {};
  }

  // ---- batches downwards --------------------------------------------------------------

  /** What is gone lies in slots before those of what is left. */
  ghost predicate GoneFromTheTop(ids: set<nat>, batch: nat, left: set<nat>)
    requires batch > 0
  {
    left <= ids && forall t, u :: t in left && u in ids && u !in left ==> Down(ids, batch, u) < Down(ids, batch, t)
  }

  ghost predicate FillsDown(ids: set<nat>, batch: nat, some: set<nat>)
    requires batch > 0
  {
    && some <= ids
    && forall k, r :: k in some && r in ids ==> (Down(ids, batch, r) == Down(ids, batch, k) <==> r in some)
  }

  lemma GoneIsHigher(ids: set<nat>, batch: nat, left: set<nat>, t: nat, u: nat)
    requires batch > 0 && GoneFromTheTop(ids, batch, left) && t in left && u in ids && u !in left
    ensures t < u
  {
    if u <= t { DownShrinks(ids, batch, u, t); }
  }

  lemma AboveIs(ids: set<nat>, left: set<nat>, some: set<nat>, k: nat)
    requires left <= ids && some <= left && k in some
    requires forall t, u :: t in left && u in ids && u !in left ==> t < u
    requires forall x, y :: x in some && y in left && y !in some ==> y < x
    ensures |ids - left| <= Above(ids, k) < |ids - left| + |some|
  {
    var later := set t | t in some && t > k;
    assert (set t | t in ids && t > k) == (ids - left) + later;
    assert (ids - left) !! later;
    assert k in some && k !in later;
    SubsetSize(later, some);
  }

  lemma AboveRest(ids: set<nat>, left: set<nat>, some: set<nat>, r: nat)
    requires left <= ids && some <= left && r in left
    requires forall t, u :: t in left && u in ids && u !in left ==> t < u
    requires forall x :: x in some ==> r < x
    ensures Above(ids, r) >= |ids - left| + |some|
  {
    assert (ids - left) !! some;
    SubsetSize((ids - left) + some, set t | t in ids && t > r);
  }

  /** The highest id left and the lowest one gone, counted from the top. */
  lemma AtTheCut(ids: set<nat>, left: set<nat>, t: nat, u: nat)
    requires left <= ids && t in left && u in ids && u !in left
    requires forall x :: x in left ==> x <= t
    requires forall x :: x in ids - left ==> u <= x
    requires forall x :: x in ids && x !in left ==> t < x
    ensures Above(ids, t) == |ids - left| && Above(ids, u) + 1 == |ids - left|
  {
    var gone := ids - left;
    assert (set x | x in ids && x > t) == gone;
    assert (set x | x in ids && x > u) == gone - {u};
  }

  lemma SlotsAtTheCut(n: nat, batch: nat, up: nat, down: nat)
    requires batch > 0 && n == up && down + 1 == n && down / batch < up / batch
    ensures n % batch == 0
  {
    StepMeansMultiple(n, batch);
  }

  lemma ZeroIsMultiple(batch: nat)
    requires batch > 0
    ensures 0 % batch == 0
  {
  }

  lemma CutIsAligned(ids: set<nat>, batch: nat, left: set<nat>, t: nat, u: nat)
    requires batch > 0 && GoneFromTheTop(ids, batch, left) && t in left && u in ids && u !in left
    requires Above(ids, t) == |ids - left| && Above(ids, u) + 1 == |ids - left|
    ensures |ids - left| % batch == 0
  {
    assert Down(ids, batch, u) < Down(ids, batch, t);
    SlotsAtTheCut(|ids - left|, batch, Above(ids, t), Above(ids, u));
  }

  lemma SomeGoneIsAligned(ids: set<nat>, batch: nat, left: set<nat>, t: nat, u: nat)
    requires batch > 0 && GoneFromTheTop(ids, batch, left) && t in left && u in ids - left
    requires forall x :: x in left ==> x <= t
    requires forall x :: x in ids - left ==> u <= x
    ensures |ids - left| % batch == 0
  {
    LeftIsLower(ids, batch, left, t);
    AtTheCut(ids, left, t, u);
    CutIsAligned(ids, batch, left, t, u);
  }

  /** A whole number of batches is gone. */
  lemma GoneIsAligned(ids: set<nat>, batch: nat, left: set<nat>)
    requires batch > 0 && GoneFromTheTop(ids, batch, left) && left != {}
    ensures |ids - left| % batch == 0
  {
    if ids - left == {} {
      ZeroIsMultiple(batch);
    } else {
      SomeGoneIsAligned(ids, batch, left, Greatest(left), Least(ids - left));
    }
  }

  lemma LeftIsLower(ids: set<nat>, batch: nat, left: set<nat>, t: nat)
    requires batch > 0 && GoneFromTheTop(ids, batch, left) && t in left
    ensures forall u :: u in ids && u !in left ==> t < u
  {
    forall u | u in ids && u !in left ensures t < u { GoneIsHigher(ids, batch, left, t, u); }
  }

  lemma RestIsLower(ids: set<nat>, batch: nat, left: set<nat>, k: nat, r: nat)
    requires batch > 0 && GoneFromTheTop(ids, batch, left)
    requires k in Largest(left, batch) && r in ids && r !in Largest(left, batch)
    ensures Down(ids, batch, r) != Down(ids, batch, k)
  {
    var some := Largest(left, batch);
    LargestAreLast(left, batch);
    if r in left {
      forall t, u | t in left && u in ids && u !in left ensures t < u { GoneIsHigher(ids, batch, left, t, u); }
      GoneIsAligned(ids, batch, left);
      if |some| < batch { FullSelection(some, left); }
      AboveIs(ids, left, some, k);
      AboveRest(ids, left, some, r);
      SameQuotient(|ids - left|, Above(ids, k), batch);
      QuotientAfter(|ids - left|, Above(ids, r), batch);
    }
  }

  /** The next batch from the top is a slot. */
  lemma SelectedFillsDown(ids: set<nat>, batch: nat, left: set<nat>)
    requires batch > 0 && GoneFromTheTop(ids, batch, left)
    ensures FillsDown(ids, batch, Largest(left, batch))
  {
    var some := Largest(left, batch);
    LargestAreLast(left, batch);
    forall k, r | k in some && r in ids ensures Down(ids, batch, r) == Down(ids, batch, k) <==> r in some {
      if r in some {
        forall t, u | t in left && u in ids && u !in left ensures t < u { GoneIsHigher(ids, batch, left, t, u); }
        GoneIsAligned(ids, batch, left);
        AboveIs(ids, left, some, k);
        AboveIs(ids, left, some, r);
        SameQuotient(|ids - left|, Above(ids, k), batch);
        SameQuotient(|ids - left|, Above(ids, r), batch);
      } else {
        RestIsLower(ids, batch, left, k, r);
      }
    }
  }
}
