/**
 * The price calculator on the order form: the quantity input (#qty), the
 * step buttons beside it, the unit price and subtotal shown to the
 * customer, the hidden fields sent with the order, and the tier list.
 * Each DOM value is a string field of OrderPage.
 */
module Calculator {
  import opened Wrappers
  import opened Numbers
  import opened Money
  import opened Tiers
  import opened TierList
  import opened Validation

  /** Shown instead of an amount when the unit price is 0 (an em dash). */
  const Placeholder := "\U{2014}"

  function Max(a: int, b: int): (m: int)
    ensures m >= a && m >= b && (m == a || m == b)
  {
    if a < b then b else a
  }

  /** parseInt(text || "0", 10) || 0: the number text starts with, 0 when there is none. */
  function ParseIntOrZero(text: string): int {
    match ParseInt(if text == "" then "0" else text)
    case None => 0
    case Some(n) => n
  }

  /** A number written out by String(n) reads back as itself. */
  lemma ParseIntOrZeroOfString(n: int)
    ensures ParseIntOrZero(IntToString(n)) == n
  {
    ParseIntRoundTrip(n);
  }

  /** The quantity updateTotals reads from #qty: never negative. */
  function ReadQuantity(text: string): nat {
    Max(0, ParseIntOrZero(text))
  }

  /** A parsed number is kept when it is not negative and clamped to 0 when it is; no number reads as 0. */
  lemma ReadQuantityClamps(text: string)
    ensures ParseInt(text) == None ==> ReadQuantity(text) == 0
    ensures forall n :: ParseInt(text) == Some(n) ==> ReadQuantity(text) == (if n < 0 then 0 else n)
  {
    if text == "" {
      ParseIntRoundTrip(0);
      assert IntToString(0) == "0";
    }
  }

  /** A count written out by String(n) reads back as itself. */
  lemma ReadQuantityOfCount(n: nat)
    ensures ReadQuantity(IntToString(n)) == n
  {
    ParseIntRoundTrip(n);
  }

  /** Leading white space is skipped and reading stops at the first character that is not a digit. */
  lemma ReadQuantityOfTyped(w: string, n: nat, rest: string)
    requires AllWhite(w)
    requires rest == [] || !IsDigit(rest[0])
    ensures ReadQuantity(w + IntToString(n) + rest) == n
  {
    ParseIntOfString(w, n, rest);
    ReadQuantityClamps(w + IntToString(n) + rest);
  }

  /** A negative count typed in reads as 0. */
  lemma ReadQuantityOfNegative(n: int)
    requires n < 0
    ensures ReadQuantity(IntToString(n)) == 0
  {
    ParseIntRoundTrip(n);
    ReadQuantityClamps(IntToString(n));
  }

  /** Text without a digit reads as 0. */
  lemma ReadQuantityWithoutDigits(text: string)
    requires forall k :: 0 <= k < |text| ==> !IsDigit(text[k])
    ensures ReadQuantity(text) == 0
  {
    ParseIntWithoutDigits(text);
    ReadQuantityClamps(text);
  }

  /** An empty #qty reads as 0. */
  lemma EmptyQuantityIsZero()
    ensures ReadQuantity("") == 0
  {
    ReadQuantityClamps("");
  }

  /** Letters alone read as 0. (text stands for the literal, so the parser is not unfolded on it in full.) */
  lemma LettersReadAsZero(text: string)
    requires text == "abc"
    ensures ReadQuantity(text) == 0
  {
    ReadQuantityWithoutDigits(text);
  }

  /**
   * " 12abc" reads as 12: the blank is skipped and the letters end the number.
   * (text stands for the literal, so the parser is not unfolded on it in full.)
   */
  lemma TypedTwelveReadsTwelve(text: string)
    requires text == " 12abc"
    ensures ReadQuantity(text) == 12
  {
    var w, rest := " ", "abc";
    assert IntToString(12) == "12";
    assert text == w + IntToString(12) + rest;
    ReadQuantityOfTyped(w, 12, rest);
  }

  /** A negative count reads as none at all. */
  lemma ReadQuantityOfMinusFive()
    ensures ReadQuantity("-5") == 0
  {
    assert IntToString(-5) == "-5";
    ReadQuantityOfNegative(-5);
  }

  /** What updateTotals writes, besides #qty which it only reads. */
  datatype Totals = Totals(
    quantity: string,       // #quantity, the hidden quantity sent with the order
    unitPriceText: string,  // #unitPrice, shown to the customer
    subtotalText: string,   // #subtotal, shown to the customer
    unitPriceField: string, // #unitPriceField, sent with the order
    subtotalField: string,  // #subtotalField, sent with the order
    dateField: string,      // #dateField: today's date as the browser writes it
    tierList: seq<Row>)     // #tierList

  /** The amount shown for a unit price of unit: the placeholder when unit is 0. */
  function Shown(unit: int, amount: int): (r: string)
    ensures r == Placeholder <==> unit == 0
    ensures unit != 0 ==> |r| >= 5 && RemoveDots(r[..|r| - 4]) == IntToString(amount)
  {
    assert |Placeholder| == 1;
    if unit != 0 then FormatMoney(amount) else Placeholder
  }

  /** The totals updateTotals produces for #qty holding qtyText. */
  function Recompute(pricing: seq<Tier>, qtyText: string, today: string): Totals {
    var qty := ReadQuantity(qtyText);
    var unit := UnitPrice(pricing, qty);
    var subtotal := qty * unit;
    Totals(IntToString(qty), Shown(unit, unit), Shown(unit, subtotal),
           IntToString(unit), IntToString(subtotal), today, TierRows(pricing, qty))
  }

  /**
   * The hidden fields sent with the order read back as the clamped
   * quantity, the tier price and their product.
   */
  lemma HiddenFieldsReadBack(pricing: seq<Tier>, qtyText: string, today: string)
    ensures var t := Recompute(pricing, qtyText, today);
      var q := ReadQuantity(qtyText);
      && ParseInt(t.quantity) == Some(q)
      && ParseInt(t.unitPriceField) == Some(UnitPrice(pricing, q))
      && ParseInt(t.subtotalField) == Some(q * UnitPrice(pricing, q))
  {
    var q := ReadQuantity(qtyText);
    var unit := UnitPrice(pricing, q);
    ParseIntRoundTrip(q);
    ParseIntRoundTrip(unit);
    ParseIntRoundTrip(q * unit);
  }

  /**
   * The placeholder is shown exactly when the unit price is 0; otherwise
   * the amounts shown carry the unit price and the subtotal.
   */
  lemma ShownAmounts(pricing: seq<Tier>, qtyText: string, today: string)
    ensures var t := Recompute(pricing, qtyText, today);
      var q := ReadQuantity(qtyText);
      var unit := UnitPrice(pricing, q);
      && (t.unitPriceText == Placeholder <==> unit == 0)
      && (t.subtotalText == Placeholder <==> unit == 0)
      && (unit != 0 ==> RemoveDots(t.unitPriceText[..|t.unitPriceText| - 4]) == IntToString(unit))
      && (unit != 0 ==> RemoveDots(t.subtotalText[..|t.subtotalText| - 4]) == IntToString(q * unit))
  {
  }

  /** Reading the mirrored quantity back in gives the same totals: updateTotals settles at once. */
  lemma RecomputeIsFixpoint(pricing: seq<Tier>, qtyText: string, today: string)
    ensures var t := Recompute(pricing, qtyText, today);
      Recompute(pricing, t.quantity, today) == t
  {
    ReadQuantityOfCount(ReadQuantity(qtyText));
  }

  /**
   * #qty reading as zero portraits (empty, no digits, negative) on the
   * page's tiers: 25.000 kr. a portrait, 0 kr. in all, no tier marked.
   */
  lemma ZeroPortraits(qtyText: string, today: string)
    requires ReadQuantity(qtyText) == 0
    ensures Recompute(PageTiers, qtyText, today).quantity == "0"
    ensures Recompute(PageTiers, qtyText, today).unitPriceText == "25.000 kr."
    ensures Recompute(PageTiers, qtyText, today).subtotalText == "0 kr."
    ensures forall j :: 0 <= j < |PageTiers| ==> Recompute(PageTiers, qtyText, today).tierList[j].cls == Plain
  {
    assert IntToString(0) == "0";
    PageTierPrices();
    FormatMoneyFirstTier();
    FormatMoneyZero();
    PageRowsAtZero();
  }

  /** On the page's tiers, four portraits still at 25000 each: 100000. */
  lemma FourPortraits(qtyText: string, today: string)
    requires ReadQuantity(qtyText) == 4
    ensures ParseInt(Recompute(PageTiers, qtyText, today).subtotalField) == Some(100000)
  {
    HiddenFieldsReadBack(PageTiers, qtyText, today);
    PageTierPrices();
  }

  /** On the page's tiers, five portraits at the second tier's 23000 each: 115000. */
  lemma FivePortraits(qtyText: string, today: string)
    requires ReadQuantity(qtyText) == 5
    ensures ParseInt(Recompute(PageTiers, qtyText, today).subtotalField) == Some(115000)
  {
    HiddenFieldsReadBack(PageTiers, qtyText, today);
    PageTierPrices();
  }

  /** On the page's tiers, a hundred portraits at 23000 each: 2300000. */
  lemma HundredPortraits(qtyText: string, today: string)
    requires ReadQuantity(qtyText) == 100
    ensures ParseInt(Recompute(PageTiers, qtyText, today).subtotalField) == Some(2300000)
  {
    HiddenFieldsReadBack(PageTiers, qtyText, today);
    PageTierPrices();
  }

  /** The text a step button leaves in #qty: the current count plus step, never below 0. */
  function StepText(qtyText: string, step: int): string {
    IntToString(Max(0, ParseIntOrZero(qtyText) + step))
  }

  /** A step always leaves a count that reads back as the stepped, clamped value. */
  lemma StepReadsBack(qtyText: string, step: int)
    ensures ReadQuantity(StepText(qtyText, step)) == Max(0, ParseIntOrZero(qtyText) + step)
    ensures ParseIntOrZero(StepText(qtyText, step)) >= 0
  {
    var n := Max(0, ParseIntOrZero(qtyText) + step);
    ReadQuantityOfCount(n);
    ParseIntRoundTrip(n);
  }

  /** Stepping back undoes a step that did not hit 0. */
  lemma StepUndo(n: nat, step: int)
    requires n + step >= 0
    ensures StepText(StepText(IntToString(n), step), -step) == IntToString(n)
  {
    ParseIntOrZeroOfString(n);
    assert StepText(IntToString(n), step) == IntToString(n + step);
    ParseIntOrZeroOfString(n + step);
  }

  /** Stepping down from 0, or from a negative count typed in, stays at 0. */
  lemma StepDownFromZero(qtyText: string, step: int)
    requires step <= 0 && ParseIntOrZero(qtyText) <= 0
    ensures StepText(qtyText, step) == "0"
  {
    assert IntToString(0) == "0";
  }

  /**
   * The page's calculator state: PRICING_TIERS, the text in #qty and the
   * values updateTotals writes.
   */
  class OrderPage {
    const pricing: seq<Tier>
    var qty: string
    var quantity: string
    var unitPriceText: string
    var subtotalText: string
    var unitPriceField: string
    var subtotalField: string
    var dateField: string
    var tierList: seq<Row>

    function View(): Totals
      reads this
    {
      Totals(quantity, unitPriceText, subtotalText, unitPriceField, subtotalField, dateField, tierList)
    }

    /** Page load: the tiers are installed and the totals computed once for the initial #qty. */
    constructor(pricing: seq<Tier>, initialQty: string, today: string)
      ensures this.pricing == pricing && qty == initialQty
      ensures View() == Recompute(pricing, initialQty, today)
    {
      this.pricing := pricing;
      qty := initialQty;
      quantity := "";
      unitPriceText := "";
      subtotalText := "";
      unitPriceField := "";
      subtotalField := "";
      dateField := "";
      tierList := [];
      new;
      UpdateTotals(today);
    }

    /** renderTiers(activeQty): rebuild the tier list from the sorted tiers. */
    method RenderTiers(activeQty: int)
      modifies this`tierList
      ensures tierList == TierRows(pricing, activeQty)
    {
      var tiers := SortByMin(pricing);
      var last := LastActiveIndex(tiers, activeQty);
      var rows: seq<Row> := [];
      for i := 0 to |tiers|
        invariant rows == RowsOf(tiers, last)[..i]
      {
        var cls := if i < last then Past else if i == last then Active else Plain;
        RowsOfStep(tiers, last, i);
        rows := rows + [Row(tiers[i].0, tiers[i].1, cls)];
      }
      assert RowsOf(tiers, last)[..|tiers|] == RowsOf(tiers, last);
      tierList := rows;
    }

    /** updateTotals: recompute everything from #qty, which it reads and never writes. */
    method UpdateTotals(today: string)
      modifies this
      ensures qty == old(qty)
      ensures View() == Recompute(pricing, qty, today)
    {
      var q := ReadQuantity(qty);
      var unit := GetUnitPrice(pricing, q);
      var subtotal := q * unit;
      unitPriceText := if unit != 0 then FormatMoney(unit) else Placeholder;
      subtotalText := if unit != 0 then FormatMoney(subtotal) else Placeholder;
      quantity := IntToString(q);
      unitPriceField := IntToString(unit);
      subtotalField := IntToString(subtotal);
      dateField := today;
      assert unit == UnitPrice(pricing, q);
      assert unitPriceText == Shown(unit, unit) && subtotalText == Shown(unit, subtotal);
      RenderTiers(q);
    }

    /** A click on a step button carrying step. */
    method Step(step: int, today: string)
      modifies this
      ensures qty == StepText(old(qty), step)
      ensures ReadQuantity(qty) == Max(0, ParseIntOrZero(old(qty)) + step)
      ensures View() == Recompute(pricing, qty, today)
    {
      var current := ParseIntOrZero(qty);
      qty := IntToString(Max(0, current + step));
      StepReadsBack(old(qty), step);
      UpdateTotals(today);
    }

    /** Typing text into #qty: the totals follow, the text stays as typed. */
    method QtyInput(text: string, today: string)
      modifies this
      ensures qty == text
      ensures View() == Recompute(pricing, text, today)
    {
      qty := text;
      UpdateTotals(today);
    }

    /**
     * Typing text into #quantity: #qty gets the clamped count, and the
     * totals are those of the text typed.
     */
    method QuantityInput(text: string, today: string)
      modifies this
      ensures qty == IntToString(ReadQuantity(text))
      ensures quantity == qty
      ensures View() == Recompute(pricing, text, today)
    {
      qty := IntToString(Max(0, ParseIntOrZero(text)));
      ReadQuantityOfCount(ReadQuantity(text));
      UpdateTotals(today);
    }

    /**
     * Pressing send: the checks run on the raw values; a blocked order
     * changes none of the calculator's values, one that passes recomputes
     * the totals before it is sent.
     */
    method Submit(name: string, email: string, phone: string, today: string) returns (d: Decision)
      modifies this
      ensures d == CheckOrder(name, email, phone)
      ensures qty == old(qty)
      ensures d.Blocked? ==> View() == old(View())
      ensures d.Submit? ==> View() == Recompute(pricing, qty, today)
    {
      d := CheckOrder(name, email, phone);
      if d.Blocked? {
        return;
      }
      UpdateTotals(today);
    }
  }
}
