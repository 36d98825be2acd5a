/**
 * renderTiers: the rows of the tier list, one per tier in ascending min
 * order, marked "past" before the last tier the quantity reaches, "active"
 * on it, and left plain after it.
 */
module TierList {
  import opened Tiers

  /** The class a row carries besides "tier". */
  datatype TierClass = Plain | Past | Active

  /** One row of the tier list: the tier's threshold, its price and its class. */
  datatype Row = Row(min: int, price: int, cls: TierClass)

  function ClassAt(i: int, last: int): TierClass {
    if i < last then Past else if i == last then Active else Plain
  }

  /** The rows renderTiers(qty) leaves in the tier list. */
  function TierRows(pricing: seq<Tier>, qty: int): (rows: seq<Row>)
    ensures |rows| == |pricing|
  {
    var sorted := SortByMin(pricing);
    RowsOf(sorted, LastAtMost(sorted, qty))
  }

  /** The rows of the sorted tiers when the last reached index is last. */
  function RowsOf(sorted: seq<Tier>, last: int): (rows: seq<Row>)
    ensures |rows| == |sorted|
  {
    seq(|sorted|, i requires 0 <= i < |sorted| => Row(sorted[i].0, sorted[i].1, ClassAt(i, last)))
  }

  /** One more row drawn: the row of tier i, classed against last. */
  lemma RowsOfStep(sorted: seq<Tier>, last: int, i: nat)
    requires i < |sorted|
    ensures RowsOf(sorted, last)[..i + 1] == RowsOf(sorted, last)[..i] + [Row(sorted[i].0, sorted[i].1, ClassAt(i, last))]
  {
  }

  /** Rows before last are past, the row at last is active, the rest are plain. */
  lemma RowClasses(sorted: seq<Tier>, last: int)
    ensures forall j :: 0 <= j < |sorted| ==> (RowsOf(sorted, last)[j].cls == Past <==> j < last)
    ensures forall j :: 0 <= j < |sorted| ==> (RowsOf(sorted, last)[j].cls == Active <==> j == last)
    ensures forall j :: 0 <= j < |sorted| && last < j ==> RowsOf(sorted, last)[j].cls == Plain
  {
  }

  /** The (min, price) each row shows. */
  function RowTiers(rows: seq<Row>): (tiers: seq<Tier>)
    ensures |tiers| == |rows|
  {
    seq(|rows|, i requires 0 <= i < |rows| => (rows[i].min, rows[i].price))
  }

  /** renderTiers' first loop: the last sorted index whose min activeQty reaches, or -1. */
  method LastActiveIndex(tiers: seq<Tier>, qty: int) returns (last: int)
    ensures -1 <= last < |tiers|
    ensures last >= 0 ==> tiers[last].0 <= qty
    ensures forall j :: last < j < |tiers| ==> qty < tiers[j].0
    ensures last == LastAtMost(tiers, qty)
  {
    last := -1;
    for i := 0 to |tiers|
      invariant last == LastAtMost(tiers[..i], qty)
    {
      LastAtMostStep(tiers, i, qty);
      if qty >= tiers[i].0 {
        last := i;
      }
    }
    assert tiers[..|tiers|] == tiers;
  }

  /**
   * The list shows every tier exactly once, sorted by min with equal mins
   * in input order.
   */
  lemma RowsShowSortedTiers(p: seq<Tier>, qty: int)
    ensures RowTiers(TierRows(p, qty)) == SortByMin(p)
    ensures SortedByMin(RowTiers(TierRows(p, qty)))
    ensures multiset(RowTiers(TierRows(p, qty))) == multiset(p)
    ensures forall k :: KeyRun(RowTiers(TierRows(p, qty)), k) == KeyRun(p, k)
  {
    var s := SortByMin(p);
    assert RowTiers(TierRows(p, qty)) == s;
    forall k
      ensures KeyRun(s, k) == KeyRun(p, k)
    {
      SortIsStable(p, k);
    }
  }

  /**
   * When qty reaches some min, exactly one row is active: the one showing
   * the tier whose price is charged. Every row before it is past, every row
   * after it is plain and has a min above qty.
   */
  lemma ActiveRowIsCharged(p: seq<Tier>, qty: int)
    requires exists i :: 0 <= i < |p| && p[i].0 <= qty
    ensures exists a :: 0 <= a < |TierRows(p, qty)| && TierRows(p, qty)[a].cls == Active
    ensures forall a :: 0 <= a < |TierRows(p, qty)| && TierRows(p, qty)[a].cls == Active ==>
      TierRows(p, qty)[a].price == UnitPrice(p, qty) && TierRows(p, qty)[a].min <= qty
    ensures forall a, j :: 0 <= a < |TierRows(p, qty)| && TierRows(p, qty)[a].cls == Active && 0 <= j < |TierRows(p, qty)| ==>
      (TierRows(p, qty)[j].cls == Past <==> j < a) && (TierRows(p, qty)[j].cls == Active <==> j == a)
    ensures forall a, j :: 0 <= a < j < |TierRows(p, qty)| && TierRows(p, qty)[a].cls == Active ==>
      TierRows(p, qty)[j].cls == Plain && qty < TierRows(p, qty)[j].min
  {
    var sorted := SortByMin(p);
    SomeTierReached(p, qty);
    ActiveRowOf(sorted, qty);
    assert TierRows(p, qty) == RowsOf(sorted, LastAtMost(sorted, qty));
    assert UnitPrice(p, qty) == sorted[ChosenIndex(sorted, qty)].1;
  }

  /** The row at the last reached index of any tier sequence is the only active one. */
  lemma ActiveRowOf(s: seq<Tier>, qty: int)
    requires LastAtMost(s, qty) >= 0
    ensures var rows := RowsOf(s, LastAtMost(s, qty));
      && (exists a :: 0 <= a < |rows| && rows[a].cls == Active)
      && (forall a :: 0 <= a < |rows| && rows[a].cls == Active ==>
            rows[a].price == s[ChosenIndex(s, qty)].1 && rows[a].min <= qty)
      && (forall a, j :: 0 <= a < |rows| && rows[a].cls == Active && 0 <= j < |rows| ==>
            (rows[j].cls == Past <==> j < a) && (rows[j].cls == Active <==> j == a))
      && (forall a, j :: 0 <= a < j < |rows| && rows[a].cls == Active ==>
            rows[j].cls == Plain && qty < rows[j].min)
  {
    var a := LastAtMost(s, qty);
    RowClasses(s, a);
    var rows := RowsOf(s, a);
    assert rows[a].cls == Active;
  }

  /** A tier whose min qty reaches keeps the sorted list's last reached index off -1. */
  lemma SomeTierReached(p: seq<Tier>, qty: int)
    requires exists i :: 0 <= i < |p| && p[i].0 <= qty
    ensures LastAtMost(SortByMin(p), qty) >= 0
  {
    var i :| 0 <= i < |p| && p[i].0 <= qty;
    SortKeepsTiers(p, p[i]);
  }

  /**
   * When qty is below every min, no row is active or past, although the
   * price charged falls back to the first row's.
   */
  lemma NoActiveRowBelowEveryMin(p: seq<Tier>, qty: int)
    requires forall i :: 0 <= i < |p| ==> qty < p[i].0
    ensures forall j :: 0 <= j < |TierRows(p, qty)| ==> TierRows(p, qty)[j].cls == Plain
    ensures p != [] ==> UnitPrice(p, qty) == TierRows(p, qty)[0].price
  {
    var s := SortByMin(p);
    var a := LastAtMost(s, qty);
    assert a < 0 by {
      if a >= 0 {
        SortKeepsTiers(p, s[a]);
      }
    }
  }

  /** On the page's tiers no row is marked for zero portraits. */
  lemma PageRowsAtZero()
    ensures forall j :: 0 <= j < |PageTiers| ==> TierRows(PageTiers, 0)[j].cls == Plain
  {
    assert PageTiers[0].0 == 1 && PageTiers[1].0 == 5;
    NoActiveRowBelowEveryMin(PageTiers, 0);
  }
}
