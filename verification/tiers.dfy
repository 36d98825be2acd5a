/**
 * The price tiers and getUnitPrice: the tiers are sorted by ascending
 * minimum quantity (a stable sort), and the quantity is charged the price of
 * the last tier whose minimum it reaches, or of the first tier when it
 * reaches none.
 */
module Tiers {
  import opened Wrappers

  /** A tier (min, price): from `min` portraits on, each costs `price`. */
  type Tier = (int, int)

  predicate SortedByMin(s: seq<Tier>) {
    forall i, j :: 0 <= i < j < |s| ==> s[i].0 <= s[j].0
  }

  /**
   * t put into the sorted s behind every tier whose min is at most t's:
   * one step of a stable insertion sort.
   */
  function Insert(s: seq<Tier>, t: Tier): (r: seq<Tier>)
    requires SortedByMin(s)
    ensures |r| == |s| + 1 && SortedByMin(r)
    ensures multiset(r) == multiset(s) + multiset{t}
    ensures r[|r| - 1] == t || (s != [] && r[|r| - 1] == s[|s| - 1])
  {
    if s == [] || s[|s| - 1].0 <= t.0 then s + [t]
    else
      var init, last := s[..|s| - 1], s[|s| - 1];
      assert s == init + [last];
      var x := Insert(init, t);
      SortedSnoc(x, last);
      x + [last]
  }

  /** A tier whose min is at least the last one's can go on the end of a sorted list. */
  lemma SortedSnoc(x: seq<Tier>, last: Tier)
    requires SortedByMin(x) && (x == [] || x[|x| - 1].0 <= last.0)
    ensures SortedByMin(x + [last])
  {
    var r := x + [last];
    forall i, j | 0 <= i < j < |r|
      ensures r[i].0 <= r[j].0
    {
      if j == |x| {
        assert r[i].0 <= x[|x| - 1].0;
      }
    }
  }

  /**
   * The tiers in ascending order of min, tiers with equal mins left in
   * their input order, as the stable Array.prototype.sort leaves them.
   */
  function SortByMin(s: seq<Tier>): (r: seq<Tier>)
    ensures |r| == |s| && SortedByMin(r)
    ensures multiset(r) == multiset(s)
  {
    if s == [] then []
    else
      assert s == s[..|s| - 1] + [s[|s| - 1]];
      Insert(SortByMin(s[..|s| - 1]), s[|s| - 1])
  }

  /** The tiers of s whose min is k, in their order in s. */
  function KeyRun(s: seq<Tier>, k: int): (r: seq<Tier>)
  {
    if s == [] then []
    else
      var init := KeyRun(s[..|s| - 1], k);
      init + (if s[|s| - 1].0 == k then [s[|s| - 1]] else [])
  }

  /** Every tier of KeyRun(s, k) is a tier of s with min k. */
  lemma {:induction false} KeyRunMembers(s: seq<Tier>, k: int)
    ensures |KeyRun(s, k)| <= |s|
    ensures forall i :: 0 <= i < |KeyRun(s, k)| ==> KeyRun(s, k)[i].0 == k && KeyRun(s, k)[i] in s
  {
    if s != [] {
      KeyRunMembers(s[..|s| - 1], k);
      assert forall x :: x in s[..|s| - 1] ==> x in s;
    }
  }

  lemma KeyRunSnoc(s: seq<Tier>, t: Tier, k: int)
    ensures KeyRun(s + [t], k) == KeyRun(s, k) + (if t.0 == k then [t] else [])
  {
    assert (s + [t])[..|s|] == s;
  }

  lemma {:induction false} InsertKeyRun(s: seq<Tier>, t: Tier, k: int)
    requires SortedByMin(s)
    ensures KeyRun(Insert(s, t), k) == KeyRun(s, k) + (if t.0 == k then [t] else [])
    decreases |s|, 1
  {
    if s == [] || s[|s| - 1].0 <= t.0 {
      KeyRunSnoc(s, t, k);
    } else {
      InsertBehindKeyRun(s, t, k);
    }
  }

  /** InsertKeyRun when t goes in front of the last tier of s. */
  lemma {:induction false} InsertBehindKeyRun(s: seq<Tier>, t: Tier, k: int)
    requires SortedByMin(s) && s != [] && t.0 < s[|s| - 1].0
    ensures KeyRun(Insert(s, t), k) == KeyRun(s, k) + (if t.0 == k then [t] else [])
    decreases |s|, 0
  {
    var init, last := s[..|s| - 1], s[|s| - 1];
    var x := Insert(init, t);
    assert Insert(s, t) == x + [last];
    assert s == init + [last];
    InsertKeyRun(init, t, k);
    KeyRunBehind(init, x, t, last, k);
  }

  lemma KeyRunBehind(init: seq<Tier>, x: seq<Tier>, t: Tier, last: Tier, k: int)
    requires t.0 < last.0
    requires KeyRun(x, k) == KeyRun(init, k) + (if t.0 == k then [t] else [])
    ensures KeyRun(x + [last], k) == KeyRun(init + [last], k) + (if t.0 == k then [t] else [])
  {
    KeyRunSnoc(x, last, k);
    KeyRunSnoc(init, last, k);
  }

  /** The sort keeps the tiers of every min in input order: it is stable. */
  lemma {:induction false} SortIsStable(s: seq<Tier>, k: int)
    ensures KeyRun(SortByMin(s), k) == KeyRun(s, k)
  {
    if s != [] {
      SortIsStable(s[..|s| - 1], k);
      InsertKeyRun(SortByMin(s[..|s| - 1]), s[|s| - 1], k);
    }
  }

  /** Index of the last tier of s whose min is k, or -1 when there is none. */
  function LastWithMin(s: seq<Tier>, k: int): (i: int)
    ensures -1 <= i < |s|
    ensures i >= 0 ==> s[i].0 == k
    ensures forall j :: i < j < |s| ==> s[j].0 != k
  {
    if s == [] then -1
    else if s[|s| - 1].0 == k then |s| - 1
    else LastWithMin(s[..|s| - 1], k)
  }

  /** Index of the first tier of s whose min is k, or -1 when there is none. */
  function FirstWithMin(s: seq<Tier>, k: int): (i: int)
    ensures -1 <= i < |s|
    ensures i >= 0 ==> s[i].0 == k
    ensures forall j :: 0 <= j < |s| && (i < 0 || j < i) ==> s[j].0 != k
  {
    if s == [] then -1
    else if s[0].0 == k then 0
    else
      var i := FirstWithMin(s[1..], k);
      if i < 0 then -1 else i + 1
  }

  /** KeyRun(s, k) runs from the first to the last tier of s with min k. */
  lemma {:induction false} KeyRunEnds(s: seq<Tier>, k: int)
    ensures var run := KeyRun(s, k);
      && (run == [] <==> LastWithMin(s, k) < 0)
      && (run != [] ==> run[|run| - 1] == s[LastWithMin(s, k)] && run[0] == s[FirstWithMin(s, k)])
  {
    if s != [] {
      var init := s[..|s| - 1];
      KeyRunEnds(init, k);
      FirstWithMinOfInit(s, k);
      var f := FirstWithMin(init, k);
      if f >= 0 {
        assert s[f] == init[f];
      }
    }
  }

  /** The first tier with min k lies in s without its last tier, or is that last tier. */
  lemma FirstWithMinOfInit(s: seq<Tier>, k: int)
    requires s != []
    ensures var f := FirstWithMin(s[..|s| - 1], k);
      FirstWithMin(s, k) == if f >= 0 then f else if s[|s| - 1].0 == k then |s| - 1 else -1
  {
    var init := s[..|s| - 1];
    var f, g := FirstWithMin(init, k), FirstWithMin(s, k);
    if f >= 0 {
      assert s[f] == init[f];
      assert 0 <= g <= f;
      assert init[g] == s[g];
    } else {
      assert forall j :: 0 <= j < |init| ==> s[j] == init[j];
    }
  }

  /**
   * Index of the last tier of s with min <= qty, or -1 when qty is below
   * every min: renderTiers' lastActiveIndex, and the last tier getUnitPrice's
   * scan assigns to `chosen`.
   */
  function LastAtMost(s: seq<Tier>, qty: int): (i: int)
    ensures -1 <= i < |s|
    ensures i >= 0 ==> s[i].0 <= qty
    ensures forall j :: i < j < |s| ==> qty < s[j].0
  {
    if s == [] then -1
    else if s[|s| - 1].0 <= qty then |s| - 1
    else LastAtMost(s[..|s| - 1], qty)
  }

  /** One more tier scanned: it becomes the last reached when qty reaches its min. */
  lemma LastAtMostStep(s: seq<Tier>, i: nat, qty: int)
    requires i < |s|
    ensures LastAtMost(s[..i + 1], qty) == if s[i].0 <= qty then i else LastAtMost(s[..i], qty)
  {
    assert s[..i + 1][..i] == s[..i];
  }

  /** The index into the sorted tiers that getUnitPrice ends on: it starts at 0. */
  function ChosenIndex(sorted: seq<Tier>, qty: int): (i: nat)
    requires |sorted| > 0
    ensures i < |sorted|
  {
    var last := LastAtMost(sorted, qty);
    if last < 0 then 0 else last
  }

  /** getUnitPrice(qty): the unit price charged for qty portraits; 0 without tiers. */
  function UnitPrice(pricing: seq<Tier>, qty: int): int
  {
    var sorted := SortByMin(pricing);
    if sorted == [] then 0 else sorted[ChosenIndex(sorted, qty)].1
  }

  /** The largest min that qty reaches, None when qty is below every min. */
  function LargestMinAtMost(p: seq<Tier>, qty: int): (m: Option<int>)
    ensures m.None? ==> forall i :: 0 <= i < |p| ==> qty < p[i].0
    ensures m.Some? ==> m.value <= qty && exists i :: 0 <= i < |p| && p[i].0 == m.value
    ensures m.Some? ==> forall i :: 0 <= i < |p| && p[i].0 <= qty ==> p[i].0 <= m.value
  {
    if p == [] then None
    else
      var m := LargestMinAtMost(p[..|p| - 1], qty);
      var t := p[|p| - 1];
      if qty < t.0 || (m.Some? && t.0 <= m.value) then m else Some(t.0)
  }

  /** The smallest min of a non-empty tier list. */
  function SmallestMin(p: seq<Tier>): (m: int)
    requires |p| > 0
    ensures exists i :: 0 <= i < |p| && p[i].0 == m
    ensures forall i :: 0 <= i < |p| ==> m <= p[i].0
  {
    if |p| == 1 then p[0].0
    else
      var m := SmallestMin(p[..|p| - 1]);
      if p[|p| - 1].0 < m then p[|p| - 1].0 else m
  }

  /**
   * The tier getUnitPrice charges, located in the unsorted input: when qty
   * reaches some min, the LAST tier in input order whose min is the largest
   * min qty reaches; otherwise the FIRST tier in input order whose min is
   * the smallest.
   */
  function ReferenceChoice(p: seq<Tier>, qty: int): (i: int)
    requires |p| > 0
    ensures 0 <= i < |p|
  {
    match LargestMinAtMost(p, qty)
    case Some(m) => LastWithMin(p, m)
    case None => FirstWithMin(p, SmallestMin(p))
  }

  /** The sorted list holds the same tiers as the input. */
  lemma SortKeepsTiers(p: seq<Tier>, x: Tier)
    ensures x in SortByMin(p) <==> x in p
  {
    var s := SortByMin(p);
    assert x in s <==> x in multiset(s);
    assert x in p <==> x in multiset(p);
  }

  /** In sorted tiers, the last tier qty reaches has the largest min qty reaches. */
  lemma ReachedIsAtLeast(s: seq<Tier>, qty: int, j: nat)
    requires SortedByMin(s) && j < |s| && s[j].0 <= qty
    ensures j <= LastAtMost(s, qty) && s[j].0 <= s[LastAtMost(s, qty)].0
  {
  }

  lemma {:induction false} ChosenWhenReached(p: seq<Tier>, qty: int)
    requires |p| > 0 && LargestMinAtMost(p, qty).Some?
    ensures var s := SortByMin(p);
      s[ChosenIndex(s, qty)] == p[LastWithMin(p, LargestMinAtMost(p, qty).value)]
  {
    var s := SortByMin(p);
    var m := LargestMinAtMost(p, qty).value;
    forall x
      ensures x in s <==> x in p
    {
      SortKeepsTiers(p, x);
    }
    SortIsStable(p, m);
    ReachedIn(s, p, qty, m);
  }

  /** ChosenWhenReached for any sorted s holding the tiers of p, with the run of m kept. */
  lemma ReachedIn(s: seq<Tier>, p: seq<Tier>, qty: int, m: int)
    requires SortedByMin(s) && |s| > 0
    requires forall x :: x in s <==> x in p
    requires LargestMinAtMost(p, qty) == Some(m)
    requires KeyRun(s, m) == KeyRun(p, m)
    ensures s[ChosenIndex(s, qty)] == p[LastWithMin(p, m)]
  {
    var k :| 0 <= k < |p| && p[k].0 == m;
    assert p[k] in s;
    var j :| 0 <= j < |s| && s[j] == p[k];
    ReachedIsAtLeast(s, qty, j);
    var i := LastAtMost(s, qty);
    assert s[i] in p;
    assert s[i].0 == m;
    SameRunSameLast(s, p, i, m);
  }

  /** Two lists with the same tiers of min m end that run on the same tier. */
  lemma SameRunSameLast(s: seq<Tier>, p: seq<Tier>, i: nat, m: int)
    requires i < |s| && s[i].0 == m
    requires forall j :: i < j < |s| ==> s[j].0 != m
    requires KeyRun(s, m) == KeyRun(p, m)
    ensures LastWithMin(p, m) >= 0 && s[i] == p[LastWithMin(p, m)]
  {
    assert LastWithMin(s, m) == i;
    KeyRunEnds(s, m);
    KeyRunEnds(p, m);
  }

  lemma {:induction false} ChosenWhenBelowAll(p: seq<Tier>, qty: int)
    requires |p| > 0 && LargestMinAtMost(p, qty).None?
    ensures var s := SortByMin(p);
      s[ChosenIndex(s, qty)] == p[FirstWithMin(p, SmallestMin(p))]
  {
    var s := SortByMin(p);
    var m := SmallestMin(p);
    forall x
      ensures x in s <==> x in p
    {
      SortKeepsTiers(p, x);
    }
    SortIsStable(p, m);
    BelowAllIn(s, p, qty, m);
  }

  /** ChosenWhenBelowAll for any sorted s holding the tiers of p, with the run of m kept. */
  lemma BelowAllIn(s: seq<Tier>, p: seq<Tier>, qty: int, m: int)
    requires SortedByMin(s) && |s| > 0 && |p| > 0
    requires forall x :: x in s <==> x in p
    requires LargestMinAtMost(p, qty).None? && m == SmallestMin(p)
    requires KeyRun(s, m) == KeyRun(p, m)
    ensures s[ChosenIndex(s, qty)] == p[FirstWithMin(p, m)]
  {
    forall j | 0 <= j < |s|
      ensures qty < s[j].0
    {
      assert s[j] in p;
    }
    assert LastAtMost(s, qty) < 0;
    var k :| 0 <= k < |p| && p[k].0 == m;
    assert p[k] in s;
    assert s[0] in p;
    assert s[0].0 == m;
    SameRunSameFirst(s, p, m);
  }

  /** Two lists with the same tiers of min m start that run on the same tier. */
  lemma SameRunSameFirst(s: seq<Tier>, p: seq<Tier>, m: int)
    requires |s| > 0 && s[0].0 == m
    requires KeyRun(s, m) == KeyRun(p, m)
    ensures FirstWithMin(p, m) >= 0 && s[0] == p[FirstWithMin(p, m)]
  {
    assert FirstWithMin(s, m) == 0;
    KeyRunEnds(s, m);
    KeyRunEnds(p, m);
  }

  /**
   * getUnitPrice charges the tier ReferenceChoice finds without sorting:
   * the last input tier with the largest min qty reaches, or, when qty
   * reaches none, the first input tier with the smallest min.
   */
  lemma UnitPriceIsReferenceChoice(p: seq<Tier>, qty: int)
    requires |p| > 0
    ensures var s := SortByMin(p); s[ChosenIndex(s, qty)] == p[ReferenceChoice(p, qty)]
    ensures UnitPrice(p, qty) == p[ReferenceChoice(p, qty)].1
  {
    if LargestMinAtMost(p, qty).Some? {
      ChosenWhenReached(p, qty);
    } else {
      ChosenWhenBelowAll(p, qty);
    }
  }

  /**
   * getUnitPrice's scan over the sorted tiers: start from the first and let
   * every tier whose min qty reaches replace the choice.
   */
  method ScanTiers(tiers: seq<Tier>, qty: int) returns (chosen: Tier)
    requires |tiers| > 0
    ensures chosen == tiers[ChosenIndex(tiers, qty)]
  {
    chosen := tiers[0];
    for i := 0 to |tiers|
      invariant var last := LastAtMost(tiers[..i], qty);
        chosen == tiers[if last < 0 then 0 else last]
    {
      LastAtMostStep(tiers, i, qty);
      if qty >= tiers[i].0 {
        chosen := tiers[i];
      }
    }
    assert tiers[..|tiers|] == tiers;
  }

  /**
   * getUnitPrice: the unit price of the tier the scan of a sorted copy of
   * the tiers ends on, and 0 when there are no tiers.
   */
  method GetUnitPrice(pricing: seq<Tier>, qty: int) returns (unit: int)
    ensures pricing == [] ==> unit == 0
    ensures pricing != [] ==> unit == pricing[ReferenceChoice(pricing, qty)].1
    ensures unit == UnitPrice(pricing, qty)
  {
    var tiers := SortByMin(pricing);
    if |tiers| == 0 {
      return 0;
    }
    var chosen := ScanTiers(tiers, qty);
    UnitPriceIsReferenceChoice(pricing, qty);
    unit := chosen.1;
  }

  /**
   * Why UnitPriceMonotone asks tiers sharing a min to cost the same: with
   * two tiers at min 1, the first is charged below the threshold and the
   * last at it, so the price rises from 10 to 20.
   */
  lemma EqualMinsCanRaisePrice(p: seq<Tier>)
    requires p == [(1, 10), (1, 20)]
    ensures UnitPrice(p, 0) == 10 && UnitPrice(p, 1) == 20
  {
    SortOfEqualMins(p);
  }

  /** Two tiers with the same min stay in their order. */
  lemma SortOfEqualMins(p: seq<Tier>)
    requires p == [(1, 10), (1, 20)]
    ensures SortByMin(p) == p
  {
    assert p[..1] == [(1, 10)] && p[..1][..0] == [];
    assert SortByMin(p[..1]) == [(1, 10)];
  }

  /** The choice only moves forward through the sorted tiers as qty grows. */
  lemma ChosenIndexMonotone(s: seq<Tier>, q1: int, q2: int)
    requires SortedByMin(s) && |s| > 0 && q1 <= q2
    ensures ChosenIndex(s, q1) <= ChosenIndex(s, q2)
    ensures s[ChosenIndex(s, q1)].0 <= s[ChosenIndex(s, q2)].0
  {
    var i1, i2 := LastAtMost(s, q1), LastAtMost(s, q2);
    if i1 >= 0 {
      assert i1 <= i2;
    }
  }

  /** Bulk-discount shape: a larger min never carries a larger price. */
  predicate PricesNonIncreasing(p: seq<Tier>) {
    forall i, j :: 0 <= i < |p| && 0 <= j < |p| && p[i].0 <= p[j].0 ==> p[j].1 <= p[i].1
  }

  /** With bulk-discount tiers, ordering more never raises the unit price. */
  lemma UnitPriceMonotone(p: seq<Tier>, q1: int, q2: int)
    requires PricesNonIncreasing(p) && q1 <= q2
    ensures UnitPrice(p, q2) <= UnitPrice(p, q1)
  {
    var s := SortByMin(p);
    if s != [] {
      var c1, c2 := ChosenIndex(s, q1), ChosenIndex(s, q2);
      ChosenIndexMonotone(s, q1, q2);
      SortKeepsTiers(p, s[c1]);
      SortKeepsTiers(p, s[c2]);
      var i1 :| 0 <= i1 < |p| && p[i1] == s[c1];
      var i2 :| 0 <= i2 < |p| && p[i2] == s[c2];
    }
  }

  /** The number of copies of x in KeyRun(s, k). */
  lemma {:induction false} KeyRunCount(s: seq<Tier>, k: int, x: Tier)
    ensures multiset(KeyRun(s, k))[x] == if x.0 == k then multiset(s)[x] else 0
  {
    if s != [] {
      var init, last := s[..|s| - 1], s[|s| - 1];
      KeyRunCount(init, k, x);
      assert s == init + [last];
    }
  }

  predicate DistinctMins(p: seq<Tier>) {
    forall i, j :: 0 <= i < j < |p| ==> p[i].0 != p[j].0
  }

  /** No tier with min k, no run of k. */
  lemma {:induction false} KeyRunWithout(s: seq<Tier>, k: int)
    requires forall x :: x in s ==> x.0 != k
    ensures KeyRun(s, k) == []
  {
    if s != [] {
      assert forall x :: x in s[..|s| - 1] ==> x in s;
      KeyRunWithout(s[..|s| - 1], k);
    }
  }

  lemma {:induction false} KeyRunOfDistinct(s: seq<Tier>, k: int)
    requires DistinctMins(s)
    ensures |KeyRun(s, k)| <= 1
  {
    if s != [] {
      var init, last := s[..|s| - 1], s[|s| - 1];
      forall i, j | 0 <= i < j < |init|
        ensures init[i].0 != init[j].0
      {
        assert init[i] == s[i] && init[j] == s[j];
      }
      KeyRunOfDistinct(init, k);
      if last.0 == k {
        forall x | x in init
          ensures x.0 != k
        {
          var i :| 0 <= i < |init| && init[i] == x;
          assert s[i] == x;
        }
        KeyRunWithout(init, k);
      }
    }
  }

  lemma KeyRunOfLast(s: seq<Tier>)
    requires s != []
    ensures KeyRun(s, s[|s| - 1].0) != []
  {
  }

  /** Two sorted lists with the same tiers, in the same order, for every min are equal. */
  lemma {:induction false} SortedUnique(a: seq<Tier>, b: seq<Tier>)
    requires SortedByMin(a) && SortedByMin(b)
    requires forall k :: KeyRun(a, k) == KeyRun(b, k)
    ensures a == b
    decreases |a| + |b|
  {
    if a == [] && b == [] {
      return;
    }
    if a == [] || b == [] {
      KeyRunOfLast(if a == [] then b else a);
      assert false;
    }
    var la, lb := a[|a| - 1], b[|b| - 1];
    var m := if la.0 >= lb.0 then la.0 else lb.0;
    LastOfSortedRun(a, b, m);
    LastOfSortedRun(b, a, m);
    assert la == lb;
    var a', b' := a[..|a| - 1], b[..|b| - 1];
    forall k
      ensures KeyRun(a', k) == KeyRun(b', k)
    {
      var x := if la.0 == k then [la] else [];
      var ra, rb := KeyRun(a', k), KeyRun(b', k);
      assert KeyRun(a, k) == ra + x && KeyRun(b, k) == rb + x;
      assert ra + x == rb + x;
      assert ra == (ra + x)[..|ra|] && rb == (rb + x)[..|rb|];
    }
    SortedUnique(a', b');
    assert a == a' + [la] && b == b' + [lb];
  }

  /**
   * For the larger of the two last mins m: the last tier of a, if its min
   * is m, is also the last tier of b.
   */
  lemma LastOfSortedRun(a: seq<Tier>, b: seq<Tier>, m: int)
    requires SortedByMin(b) && a != [] && b != []
    requires forall k :: KeyRun(a, k) == KeyRun(b, k)
    requires a[|a| - 1].0 <= m && b[|b| - 1].0 <= m
    ensures a[|a| - 1].0 == m ==> a[|a| - 1] == b[|b| - 1]
  {
    var la := a[|a| - 1];
    if la.0 == m {
      var run := KeyRun(b, m);
      assert KeyRun(a, m) == KeyRun(a[..|a| - 1], m) + [la];
      KeyRunMembers(b, m);
      var q :| 0 <= q < |b| && b[q] == run[0];
      assert b[|b| - 1].0 == m;
    }
  }

  /**
   * Tier lists that agree on the tiers of every min, in order, sort alike
   * and so give every quantity the same unit price.
   */
  lemma SameRunsSamePrice(p1: seq<Tier>, p2: seq<Tier>)
    requires forall k :: KeyRun(p1, k) == KeyRun(p2, k)
    ensures SortByMin(p1) == SortByMin(p2)
    ensures forall qty :: UnitPrice(p1, qty) == UnitPrice(p2, qty)
  {
    forall k
      ensures KeyRun(SortByMin(p1), k) == KeyRun(SortByMin(p2), k)
    {
      SortIsStable(p1, k);
      SortIsStable(p2, k);
    }
    SortedUnique(SortByMin(p1), SortByMin(p2));
  }

  /** With distinct mins, two lists holding the same tiers hold the same run of every min. */
  lemma SameTiersSameRun(p1: seq<Tier>, p2: seq<Tier>, k: int)
    requires DistinctMins(p1) && multiset(p1) == multiset(p2)
    ensures KeyRun(p1, k) == KeyRun(p2, k)
  {
    var r1, r2 := KeyRun(p1, k), KeyRun(p2, k);
    forall x
      ensures multiset(r1)[x] == multiset(r2)[x]
    {
      KeyRunCount(p1, k, x);
      KeyRunCount(p2, k, x);
    }
    assert multiset(r1) == multiset(r2);
    KeyRunOfDistinct(p1, k);
    ShortSameMultiset(r1, r2);
  }

  /** A list of at most one tier is fixed by its multiset. */
  lemma ShortSameMultiset(r1: seq<Tier>, r2: seq<Tier>)
    requires |r1| <= 1 && multiset(r1) == multiset(r2)
    ensures r1 == r2
  {
    assert |r2| == |multiset(r2)| == |multiset(r1)| == |r1|;
    if |r1| == 1 {
      assert r2[0] in multiset(r1);
    }
  }

  /** With distinct mins the input order of the tiers does not matter. */
  lemma UnitPriceIgnoresOrder(p1: seq<Tier>, p2: seq<Tier>)
    requires DistinctMins(p1) && multiset(p1) == multiset(p2)
    ensures SortByMin(p1) == SortByMin(p2)
    ensures forall qty :: UnitPrice(p1, qty) == UnitPrice(p2, qty)
  {
    forall k
      ensures KeyRun(p1, k) == KeyRun(p2, k)
    {
      SameTiersSameRun(p1, p2, k);
    }
    SameRunsSamePrice(p1, p2);
  }

  /** The tiers the page ships with: from 1 portrait at 25000, from 5 at 23000. */
  const PageTiers: seq<Tier> := [(1, 25000), (5, 23000)]

  /** The page's two tiers: 25000 up to four portraits (and for none), 23000 from five on. */
  lemma PageTierPrices()
    ensures UnitPrice(PageTiers, 0) == 25000 && UnitPrice(PageTiers, 4) == 25000
    ensures UnitPrice(PageTiers, 5) == 23000 && UnitPrice(PageTiers, 100) == 23000
  {
    var p := PageTiers;
    assert p[..1] == [(1, 25000)];
    assert SortByMin([(1, 25000)]) == [(1, 25000)];
    assert SortByMin(p) == p;
  }
}
