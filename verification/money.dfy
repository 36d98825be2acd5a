/**
 * formatMoney: an integer amount written with "." between groups of three
 * digits, counted from the right, followed by a space and the currency suffix.
 */
module Money {
  import opened Numbers

  /** The currency suffix shown after every amount. */
  const Currency := "kr."

  /** s with every '.' taken out. */
  function RemoveDots(s: string): (r: string)
    ensures |r| <= |s|
  {
    if s == [] then [] else (if s[0] == '.' then [] else [s[0]]) + RemoveDots(s[1..])
  }

  lemma {:induction false} RemoveDotsAppend(a: string, b: string)
    ensures RemoveDots(a + b) == RemoveDots(a) + RemoveDots(b)
  {
    if a == [] {
      assert a + b == b;
    } else {
      assert (a + b)[1..] == a[1..] + b;
      RemoveDotsAppend(a[1..], b);
    }
  }

  lemma {:induction false} RemoveDotsOfDigits(d: string)
    requires AllDigits(d)
    ensures RemoveDots(d) == d
  {
    if d != [] {
      RemoveDotsOfDigits(d[1..]);
    }
  }

  /**
   * g is digits in groups of three counted from the right: a '.' stands
   * exactly at the positions j > 0 whose distance |g| - j to the end is a
   * multiple of 4, every other character is a digit, and |g| is not a
   * multiple of 4, so the first group has one to three digits and every
   * later group exactly three.
   */
  predicate ThreeGrouped(g: string) {
    && |g| % 4 != 0
    && (forall j :: 0 <= j < |g| ==> (g[j] == '.' <==> 0 < j && (|g| - j) % 4 == 0))
    && (forall j :: 0 <= j < |g| && g[j] != '.' ==> IsDigit(g[j]))
  }

  /** The characters of h + "." + tail, by position. */
  lemma JoinedAt(h: string, tail: string, j: int)
    requires 0 <= j < |h| + 1 + |tail|
    ensures j < |h| ==> (h + "." + tail)[j] == h[j]
    ensures j == |h| ==> (h + "." + tail)[j] == '.'
    ensures j > |h| ==> (h + "." + tail)[j] == tail[j - |h| - 1]
  {
  }

  lemma GroupStep(h: string, tail: string)
    requires ThreeGrouped(h) && AllDigits(tail) && |tail| == 3
    ensures ThreeGrouped(h + "." + tail)
  {
    var g := h + "." + tail;
    assert |g| == |h| + 4;
    forall j | 0 <= j < |g|
      ensures g[j] == '.' <==> 0 < j && (|g| - j) % 4 == 0
      ensures g[j] != '.' ==> IsDigit(g[j])
    {
      JoinedAt(h, tail, j);
      if j < |h| {
        assert (|g| - j) % 4 == (|h| - j) % 4 by {
          assert |g| - j == (|h| - j) + 4;
        }
      } else if j == |h| {
        assert |h| > 0 && |g| - j == 4;
      } else {
        assert 0 < |g| - j < 4;
        assert IsDigit(tail[j - |h| - 1]);
      }
    }
  }

  /** A separator put between two runs of characters is taken out again. */
  lemma RemoveDotsOfJoin(h: string, tail: string)
    requires AllDigits(tail)
    ensures RemoveDots(h + "." + tail) == RemoveDots(h) + tail
  {
    var dot := ".";
    assert RemoveDots(dot) == [] by {
      assert dot[1..] == [];
    }
    RemoveDotsAppend(h, dot);
    RemoveDotsAppend(h + dot, tail);
    RemoveDotsOfDigits(tail);
    assert RemoveDots(h + dot) == RemoveDots(h);
  }

  /**
   * The digits d with "." put in front of every digit, other than the first,
   * that has a multiple of three digits from it to the end: the effect of
   * replace(/\B(?=(\d{3})+(?!\d))/g, ".") on a run of digits.
   */
  function Grouped(d: string): (g: string)
    requires |d| >= 1 && AllDigits(d)
    ensures |g| == |d| + (|d| - 1) / 3
    ensures ThreeGrouped(g)
    ensures RemoveDots(g) == d
  {
    if |d| <= 3 then
      RemoveDotsOfDigits(d);
      d
    else
      var head, tail := d[..|d| - 3], d[|d| - 3..];
      var h := Grouped(head);
      GroupStep(h, tail);
      RemoveDotsOfJoin(h, tail);
      assert head + tail == d;
      h + "." + tail
  }

  /** The middle of a + b + c. */
  lemma MiddleOfJoin(a: string, b: string, c: string)
    ensures (a + b + c)[|a|..|a| + |b|] == b
    ensures (a + b + c)[..|a| + |b|] == a + b
  {
  }

  /** formatMoney(n) for an integer amount n. */
  function FormatMoney(n: int): (r: string)
    ensures |r| >= 5 && r[|r| - 4..] == " " + Currency
    ensures RemoveDots(r[..|r| - 4]) == IntToString(n)
  {
    var sign := if n < 0 then "-" else "";
    var g := Grouped(NatToDigits(if n < 0 then -n else n));
    var r := sign + g + (" " + Currency);
    MiddleOfJoin(sign, g, " " + Currency);
    RemoveDotsAppend(sign, g);
    r
  }

  /**
   * The number part of formatMoney(n): the sign when n is negative, then the
   * digits of n grouped in threes from the right.
   */
  lemma FormatMoneyGroups(n: int)
    ensures var r := FormatMoney(n);
      var start := if n < 0 then 1 else 0;
      (n < 0 ==> r[0] == '-')
      && ThreeGrouped(r[start..|r| - 4])
      && RemoveDots(r[start..|r| - 4]) == NatToDigits(if n < 0 then -n else n)
  {
    var r := FormatMoney(n);
    var start := if n < 0 then 1 else 0;
    var sign := if n < 0 then "-" else "";
    var g := Grouped(NatToDigits(if n < 0 then -n else n));
    MiddleOfJoin(sign, g, " " + Currency);
  }

  lemma DigitsOf25000()
    ensures NatToDigits(25000) == "25000"
  {
    assert NatToDigits(25) == "25";
    assert NatToDigits(250) == "250";
    assert NatToDigits(2500) == "2500";
  }

  lemma DigitsOf23000()
    ensures NatToDigits(23000) == "23000"
  {
    assert NatToDigits(23) == "23";
    assert NatToDigits(230) == "230";
    assert NatToDigits(2300) == "2300";
  }

  /** The unit price of the page's first tier. */
  lemma FormatMoneyFirstTier()
    ensures FormatMoney(25000) == "25.000 kr."
  {
    DigitsOf25000();
    assert Grouped("25") == "25";
    assert Grouped("25000") == "25.000";
  }

  /** The unit price of the page's second tier. */
  lemma FormatMoneySecondTier()
    ensures FormatMoney(23000) == "23.000 kr."
  {
    DigitsOf23000();
    assert Grouped("23") == "23";
    assert Grouped("23000") == "23.000";
  }

  lemma FormatMoneyZero()
    ensures FormatMoney(0) == "0 kr."
  {
    assert NatToDigits(0) == "0";
    assert Grouped("0") == "0";
  }

  lemma DigitsOfMillion()
    ensures NatToDigits(1234567) == "1234567"
  {
    assert NatToDigits(12) == "12";
    assert NatToDigits(123) == "123";
    assert NatToDigits(1234) == "1234";
    assert NatToDigits(12345) == "12345";
    assert NatToDigits(123456) == "123456";
  }

  /** A group of three more digits on the right adds one separator and leaves the rest grouped as before. */
  lemma GroupedJoin(head: string, tail: string)
    requires |head| >= 1 && AllDigits(head) && AllDigits(tail) && |tail| == 3
    ensures AllDigits(head + tail)
    ensures Grouped(head + tail) == Grouped(head) + "." + tail
  {
    var d := head + tail;
    assert d[..|d| - 3] == head && d[|d| - 3..] == tail;
  }

  /** Up to three digits, then two groups of three: two separators. */
  lemma GroupedThreeGroups(a: string, b: string, c: string)
    requires 1 <= |a| <= 3 && |b| == 3 && |c| == 3
    requires AllDigits(a) && AllDigits(b) && AllDigits(c)
    ensures AllDigits(a + b + c)
    ensures Grouped(a + b + c) == a + "." + b + "." + c
  {
    GroupedJoin(a, b);
    GroupedJoin(a + b, c);
  }

  /** The digits of 1234567 fall into three groups. */
  lemma MillionGrouped()
    ensures Grouped(NatToDigits(1234567)) == "1.234.567"
  {
    DigitsOfMillion();
    var a, b, c := "1", "234", "567";
    assert NatToDigits(1234567) == a + b + c;
    GroupedThreeGroups(a, b, c);
  }

  /** A seven-digit amount gets two separators. (n stands for the literal, so formatMoney is not unfolded on it in full.) */
  lemma FormatMoneyMillion(n: int)
    requires n == 1234567
    ensures FormatMoney(n) == "1.234.567 kr."
  {
    MillionGrouped();
    assert FormatMoney(n) == "" + "1.234.567" + (" " + Currency);
  }
}
