/**
 * The order form's checks before anything is sent: a name that is not
 * empty once trimmed, an e-mail address of the shape
 * `something@something.something` without white space, and a phone number
 * that has 7 to 15 digits once everything but the digits is dropped.
 */
module Validation {
  import opened Numbers

  const MinPhoneDigits := 7
  const MaxPhoneDigits := 15

  /** No character of s is white space (every character matches `\S`). */
  predicate NoWhite(s: string) {
    forall k :: 0 <= k < |s| ==> !IsWhite(s[k])
  }

  /** s without its trailing white space. */
  function TrimEnd(s: string): (r: string)
    ensures |r| <= |s| && r == s[..|r|]
    ensures r == [] || !IsWhite(r[|r| - 1])
    ensures AllWhite(s[|r|..])
  {
    if s == [] || !IsWhite(s[|s| - 1]) then s
    else
      var r := TrimEnd(s[..|s| - 1]);
      assert s[|r|..] == s[..|s| - 1][|r|..] + [s[|s| - 1]];
      r
  }

  /** String.prototype.trim: s without leading and trailing white space. */
  function Trim(s: string): (r: string)
    ensures |r| <= |s|
    ensures r == [] || (!IsWhite(r[0]) && !IsWhite(r[|r| - 1]))
  {
    TrimEnd(TrimStart(s))
  }

  /** What Trim keeps is a slice of s with only white space around it. */
  lemma TrimIsSlice(s: string) returns (a: nat)
    ensures a + |Trim(s)| <= |s| && Trim(s) == s[a..a + |Trim(s)|]
    ensures AllWhite(s[..a]) && AllWhite(s[a + |Trim(s)|..])
  {
    var t := TrimStart(s);
    var r := TrimEnd(t);
    a := |s| - |t|;
    assert r == s[a..a + |r|] && AllWhite(s[..a]);
    assert s[a + |r|..] == t[|r|..];
  }

  lemma {:induction false} TrimEndOfWhite(x: string, w: string)
    requires AllWhite(w)
    requires x == [] || !IsWhite(x[|x| - 1])
    ensures TrimEnd(x + w) == x
    decreases |w|
  {
    if w == [] {
      assert x + w == x;
    } else {
      var w' := w[..|w| - 1];
      assert (x + w)[..|x + w| - 1] == x + w';
      TrimEndOfWhite(x, w');
    }
  }

  /** Trim removes exactly the white space around a text whose ends are not white. */
  lemma TrimOfPadded(w1: string, x: string, w2: string)
    requires AllWhite(w1) && AllWhite(w2)
    requires x == [] || (!IsWhite(x[0]) && !IsWhite(x[|x| - 1]))
    ensures Trim(w1 + x + w2) == x
  {
    var s := w1 + x + w2;
    if x == [] {
      assert AllWhite(s);
    } else {
      assert s == w1 + (x + w2);
      TrimStartOfWhite(w1, x + w2);
      TrimEndOfWhite(x, w2);
    }
  }

  /**
   * The regular expression `^\S+@\S+\.\S+$`: no white space anywhere, an "@"
   * after at least one character, then at least one character, a ".", and at
   * least one more character.
   */
  ghost predicate MatchesEmailPattern(s: string) {
    NoWhite(s) && exists i, j :: 0 < i && i + 1 < j && j + 1 < |s| && s[i] == '@' && s[j] == '.'
  }

  /** The first index from k on holding c, or |s| when there is none. */
  function IndexFrom(s: string, c: char, k: nat): (i: nat)
    requires k <= |s|
    ensures k <= i <= |s|
    ensures i < |s| ==> s[i] == c
    ensures forall m :: k <= m < i ==> s[m] != c
    decreases |s| - k
  {
    if k == |s| || s[k] == c then k else IndexFrom(s, c, k + 1)
  }

  /** The last index below e holding c, or -1 when there is none. */
  function LastIndexBefore(s: string, c: char, e: nat): (i: int)
    requires e <= |s|
    ensures -1 <= i < e
    ensures i >= 0 ==> s[i] == c
    ensures forall m :: i < m < e ==> s[m] != c
  {
    if e == 0 then -1
    else if s[e - 1] == c then e - 1
    else LastIndexBefore(s, c, e - 1)
  }

  /**
   * validEmail: the first "@" after the first character must come at least
   * two places before the last "." that is not the final character.
   */
  function ValidEmail(s: string): bool {
    NoWhite(s) && |s| >= 1 && IndexFrom(s, '@', 1) + 1 < LastIndexBefore(s, '.', |s| - 1)
  }

  lemma ValidEmailIsPattern(s: string)
    ensures ValidEmail(s) <==> MatchesEmailPattern(s)
  {
    if MatchesEmailPattern(s) {
      var i, j :| 0 < i && i + 1 < j && j + 1 < |s| && s[i] == '@' && s[j] == '.';
      assert IndexFrom(s, '@', 1) <= i;
      assert j <= LastIndexBefore(s, '.', |s| - 1);
    }
    if ValidEmail(s) {
      var i := IndexFrom(s, '@', 1);
      var j := LastIndexBefore(s, '.', |s| - 1);
      assert 0 < i && i + 1 < j && j + 1 < |s| && s[i] == '@' && s[j] == '.';
    }
  }

  /** The phone number with every character but the digits 0-9 dropped. */
  function PhoneDigits(s: string): (d: string)
    ensures AllDigits(d) && |d| <= |s|
  {
    if s == [] then []
    else (if IsDigit(s[0]) then [s[0]] else []) + PhoneDigits(s[1..])
  }

  /** Every digit of the phone number is kept, as often as it occurs. */
  lemma {:induction false} PhoneDigitsKeepsDigits(s: string, c: char)
    requires IsDigit(c)
    ensures multiset(PhoneDigits(s))[c] == multiset(s)[c]
  {
    if s != [] {
      assert s == [s[0]] + s[1..];
      PhoneDigitsKeepsDigits(s[1..], c);
    }
  }

  lemma {:induction false} PhoneDigitsOfWhite(w: string)
    requires AllWhite(w)
    ensures PhoneDigits(w) == []
  {
    if w != [] {
      assert IsWhite(w[0]);
      PhoneDigitsOfWhite(w[1..]);
    }
  }

  lemma {:induction false} PhoneDigitsAppend(a: string, b: string)
    ensures PhoneDigits(a + b) == PhoneDigits(a) + PhoneDigits(b)
  {
    if a != [] {
      assert (a + b)[1..] == a[1..] + b;
      PhoneDigitsAppend(a[1..], b);
    } else {
      assert a + b == b;
    }
  }

  /** A phone number typed as digits only is kept as it is. */
  lemma {:induction false} PhoneDigitsOfDigits(s: string)
    requires AllDigits(s)
    ensures PhoneDigits(s) == s
  {
    if s != [] {
      PhoneDigitsOfDigits(s[1..]);
    }
  }

  /** White space around a phone number adds no digits. */
  lemma PhoneDigitsOfPadded(w1: string, x: string, w2: string)
    requires AllWhite(w1) && AllWhite(w2)
    ensures PhoneDigits(w1 + x + w2) == PhoneDigits(x)
  {
    PhoneDigitsAppend(w1 + x, w2);
    PhoneDigitsAppend(w1, x);
    PhoneDigitsOfWhite(w1);
    PhoneDigitsOfWhite(w2);
    assert [] + PhoneDigits(x) + [] == PhoneDigits(x);
  }

  /** Trimming before dropping the non-digits changes nothing. */
  lemma PhoneIgnoresTrim(s: string)
    ensures PhoneDigits(Trim(s)) == PhoneDigits(s)
  {
    var r := Trim(s);
    var a := TrimIsSlice(s);
    SplitAround(s, a, a + |r|);
    PhoneDigitsOfPadded(s[..a], r, s[a + |r|..]);
  }

  lemma SplitAround(s: string, a: nat, b: nat)
    requires a <= b <= |s|
    ensures s == s[..a] + s[a..b] + s[b..]
  {
  }

  predicate ValidPhone(digits: string) {
    MinPhoneDigits <= |digits| <= MaxPhoneDigits
  }

  /** The fields of the order form. */
  datatype Field = Name | Email | Phone

  /**
   * What pressing "send" does: mark the failing fields and stop, or go on to
   * send the order with the phone number reduced to its digits.
   */
  datatype Decision = Blocked(errors: set<Field>) | Submit(phoneDigits: string)

  /** The fields whose error message is shown for these raw input values. */
  function FieldErrors(name: string, email: string, phone: string): (errors: set<Field>)
    ensures Name in errors <==> Trim(name) == []
    ensures Email in errors <==> !MatchesEmailPattern(Trim(email))
    ensures Phone in errors <==> !ValidPhone(PhoneDigits(phone))
  {
    ValidEmailIsPattern(Trim(email));
    PhoneIgnoresTrim(phone);
    Failing(Trim(name) != [], ValidEmail(Trim(email)), ValidPhone(PhoneDigits(Trim(phone))))
  }

  /** The fields whose check did not pass. */
  function Failing(nameOk: bool, emailOk: bool, phoneOk: bool): (errors: set<Field>)
    ensures Name in errors <==> !nameOk
    ensures Email in errors <==> !emailOk
    ensures Phone in errors <==> !phoneOk
  {
    (if nameOk then {} else {Name}) + (if emailOk then {} else {Email}) + (if phoneOk then {} else {Phone})
  }

  /** The submit handler's checks on the raw name, e-mail and phone values. */
  function CheckOrder(name: string, email: string, phone: string): (d: Decision)
    ensures d.Blocked? <==> FieldErrors(name, email, phone) != {}
    ensures d.Blocked? ==> d.errors == FieldErrors(name, email, phone)
    ensures d.Submit? ==>
      Trim(name) != [] && MatchesEmailPattern(Trim(email))
      && d.phoneDigits == PhoneDigits(phone) && AllDigits(d.phoneDigits)
      && ValidPhone(d.phoneDigits)
  {
    var errors := FieldErrors(name, email, phone);
    if errors != {} then Blocked(errors)
    else
      PhoneIgnoresTrim(phone);
      Submit(PhoneDigits(Trim(phone)))
  }

  /** Text without white space at either end is left as it is by Trim. */
  lemma TrimOfUnpadded(x: string)
    requires x == [] || (!IsWhite(x[0]) && !IsWhite(x[|x| - 1]))
    ensures Trim(x) == x
  {
    TrimOfPadded("", x, "");
    assert "" + x + "" == x;
  }

  /** A number written as two groups of digits joined by a separator such as "-" keeps exactly its digits. */
  lemma SeparatedNumberAccepted(exchange: string, sep: char, line: string)
    requires AllDigits(exchange) && AllDigits(line) && !IsDigit(sep)
    ensures PhoneDigits(exchange + [sep] + line) == exchange + line
    ensures ValidPhone(PhoneDigits(exchange + [sep] + line)) <==> MinPhoneDigits <= |exchange| + |line| <= MaxPhoneDigits
  {
    assert [sep][1..] == [];
    assert PhoneDigits([sep]) == [];
    PhoneDigitsAppend(exchange, [sep]);
    PhoneDigitsOfDigits(exchange);
    assert PhoneDigits(exchange + [sep]) == exchange;
    PhoneDigitsAppend(exchange + [sep], line);
    PhoneDigitsOfDigits(line);
  }

  /** Three digits are too few for a phone number. */
  lemma ShortNumberRefused()
    ensures !ValidPhone(PhoneDigits("123"))
  {
    PhoneDigitsOfDigits("123");
  }

  /** An address without a dot after the "@" is refused. */
  lemma EmailWithoutDomainDot()
    ensures !MatchesEmailPattern("a@b")
    ensures !ValidEmail("a@b")
  {
    ValidEmailIsPattern("a@b");
  }

  /** A short complete address is accepted. */
  lemma ShortEmailAccepted()
    ensures MatchesEmailPattern("a@b.is")
    ensures ValidEmail("a@b.is")
  {
    assert "a@b.is"[1] == '@' && "a@b.is"[3] == '.';
    assert NoWhite("a@b.is");
    ValidEmailIsPattern("a@b.is");
  }

  /** With a good name and phone number, an address without a domain dot is the only error. */
  lemma OnlyEmailMarked(name: string, phone: string)
    requires Trim(name) != [] && ValidPhone(PhoneDigits(phone))
    ensures CheckOrder(name, "a@b", phone) == Blocked({Email})
  {
    EmailWithoutDomainDot();
    TrimOfUnpadded("a@b");
    assert FieldErrors(name, "a@b", phone) == {Email};
  }

  /** White space around the address does not stop an order from being sent. */
  lemma PaddedEmailAccepted(name: string, w1: string, w2: string, phone: string)
    requires Trim(name) != [] && ValidPhone(PhoneDigits(phone))
    requires AllWhite(w1) && AllWhite(w2)
    ensures CheckOrder(name, w1 + "a@b.is" + w2, phone) == Submit(PhoneDigits(phone))
  {
    ShortEmailAccepted();
    TrimOfPadded(w1, "a@b.is", w2);
    assert FieldErrors(name, w1 + "a@b.is" + w2, phone) == {};
  }

  /** A blank name is marked whatever else is typed. */
  lemma BlankNameMarked(email: string, phone: string)
    ensures CheckOrder("  ", email, phone).Blocked?
    ensures Name in CheckOrder("  ", email, phone).errors
  {
    TrimOfPadded("  ", "", "");
    assert "  " + "" + "" == "  ";
  }

  /** White space inside the address is refused. */
  lemma EmailWithInnerSpace()
    ensures !MatchesEmailPattern("a b@c.is")
  {
    assert IsWhite("a b@c.is"[1]);
  }
}
