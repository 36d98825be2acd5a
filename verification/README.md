# Tiered pricing calculator of the portrait order page

This project models, in Dafny, the price calculator and the order-form checks of `h_app.js`.
The page sells caricature portraits at tiered prices. The tier table holds (min, price) pairs. The page ships with two tiers: from 1 portrait at 25000 kr., and from 5 at 23000 kr.

- `getUnitPrice` sorts a copy of the tiers by min (a stable sort) and charges the price of the last tier whose min the quantity reaches. When the quantity reaches none, it charges the first sorted tier's price. An empty table gives 0.
- `renderTiers` lists the sorted tiers. Rows before the last reached tier are marked "past", that tier's row "active", and the rest are left plain.
- `formatMoney` groups the digits in threes with "." and appends " kr.".
- `updateTotals` reads `#qty` and clamps it to a non-negative integer. It then writes the unit price and subtotal, shown as money or as "—" when the unit price is 0. It also writes the hidden quantity, unit price, subtotal and date fields, and rebuilds the tier list.
- Three input channels recompute the totals:
  - the step buttons;
  - typing into `#qty`;
  - typing into the mirrored `#quantity`.
- Pressing send checks three fields:
  - a non-empty trimmed name;
  - an e-mail address matching `^\S+@\S+\.\S+$`;
  - a phone number with 7 to 15 digits once everything else is dropped.

  Any failure blocks sending. Otherwise the totals are recomputed before the order goes out.

Modules:

- `Wrappers`: `Option`.
- `Numbers`: the JavaScript pieces the calculator relies on:
  - `parseInt(s, 10)`: leading white space, an optional sign, then the longest digit prefix; no digits gives `None`;
  - `String(n)` on integers;
  - the ECMAScript white-space set shared by `parseInt`, `trim` and `\s`.
- `Money`: `formatMoney` on integers.
- `Tiers`: the stable sort, `getUnitPrice` (a loop, proved against the `UnitPrice` function), and a sort-free reference definition of the charged tier.
- `TierList`: the rows of `renderTiers` and its `lastActiveIndex` loop.
- `Validation`: `trim`, `validEmail`, the phone-digit check and the submit decision.
- `Calculator`: `updateTotals` as a pure function `Recompute`, plus the class `OrderPage`. The class's string fields are the DOM values, and its methods are `updateTotals`, `renderTiers`, the three input handlers and the submit check.

Behaviour of the code worth knowing:

- Typing into `#qty` does not rewrite `#qty`. A negative or non-numeric entry stays as typed, while `#quantity` and the totals show the clamped value.
- Below every threshold, the first sorted tier's price is charged. Yet no row of the tier list is marked active, because `lastActiveIndex` stays -1.
- The tier table is used as loaded. Entries are neither checked for uniqueness of min nor filtered.
- Tiers that share a min can make the price rise with the quantity. With tiers `[(1, 10), (1, 20)]`, quantity 0 is charged 10, the first sorted tier, while quantity 1 is charged 20, the last tier the scan reaches (h_app.js:147-148). `Tiers.EqualMinsCanRaisePrice` states this case.

## Model

| member | source | states |
|---|---|---|
| Tiers.SortByMin | h_app.js:145 | the copy of the tiers is sorted ascending by min and holds exactly the same tiers (as a multiset) |
| Tiers.SortIsStable | h_app.js:145 | the sort keeps the tiers of every min in their input order (Array.prototype.sort is stable) |
| Tiers.SortKeepsTiers | h_app.js:145 | a tier is in the sorted copy exactly when it is in the input |
| Tiers.LastAtMost | h_app.js:159-162 | renderTiers' `lastActiveIndex`, which is also the last index the getUnitPrice scan assigns: an index whose min qty reaches with every later min above qty, or -1 when qty is below every min |
| Tiers.UnitPrice | h_app.js:144-150 | definition (no contract of its own): 0 without tiers, else the price of the sorted tier at `ChosenIndex`; `GetUnitPrice` is proved to return it, and `UnitPriceIsReferenceChoice`, `UnitPriceMonotone` and `UnitPriceIgnoresOrder` state its properties |
| Tiers.ScanTiers | h_app.js:147-148 | starting from the first sorted tier, the scan ends on the last tier whose min qty reaches, or stays on the first when none is reached |
| Tiers.GetUnitPrice | h_app.js:144-150 | the price is 0 for an empty table and otherwise the price of the reference choice, which equals `UnitPrice` |
| Tiers.UnitPriceIsReferenceChoice | h_app.js:144-150 | without sorting: when qty reaches some min, the LAST input tier with the largest reached min is charged (later tiers win ties); otherwise the FIRST input tier with the smallest min is charged |
| Tiers.ChosenWhenReached | h_app.js:147-148 | when qty reaches a min, the chosen sorted tier is the last input tier carrying the largest reached min |
| Tiers.ChosenWhenBelowAll | h_app.js:147 | when qty reaches no min, the chosen tier is tiers[0], the first input tier with the smallest min |
| Tiers.ChosenIndexMonotone | h_app.js:147-148 | a larger quantity never moves the choice back through the sorted tiers |
| Tiers.UnitPriceMonotone | h_app.js:144-150 | when a min at least as large never carries a larger price (so tiers sharing a min cost the same), ordering more never raises the unit price |
| Tiers.EqualMinsCanRaisePrice | h_app.js:146-148 | with tiers (1, 10) and (1, 20), quantity 0 is charged 10 and quantity 1 is charged 20: without equal prices for equal mins the price can rise |
| Tiers.SortOfEqualMins | h_app.js:145 | the stable sort leaves two tiers with the same min in their order |
| Tiers.SameRunsSamePrice | h_app.js:145 | two tables with the same tiers per min, in the same order, sort alike and price every quantity alike |
| Tiers.UnitPriceIgnoresOrder | h_app.js:145 | with distinct mins, any reordering of the table gives the same sorted list and the same price for every quantity |
| Tiers.SortedUnique | h_app.js:145 | two sorted lists with the same tiers per min in the same order are equal |
| Tiers.PageTierPrices | h_app.js:20-23 | the shipped tiers charge 25000 for 0 and 4 portraits and 23000 for 5 and 100 |
| TierList.LastActiveIndex | h_app.js:159-162 | the loop returns the last sorted index whose min activeQty reaches, or -1, with every later min above activeQty |
| TierList.TierRows | h_app.js:157-176 | one row per tier, as many rows as tiers: the rows of the sorted tiers classed against `LastAtMost`; `RowsShowSortedTiers`, `ActiveRowIsCharged` and `NoActiveRowBelowEveryMin` state what they show |
| TierList.RowsOf | h_app.js:164-176 | one row per sorted tier, as many rows as tiers, carrying its min, its price and its class; `RowClasses` states the classes |
| TierList.RowsShowSortedTiers | h_app.js:157 | the rows show every tier once, sorted by min, equal mins in input order |
| TierList.RowClasses | h_app.js:164-168 | rows before the last active index are past, the row at it is active, later rows are plain |
| TierList.ActiveRowIsCharged | h_app.js:159-168 | when qty reaches some min there is exactly one active row; it shows the price charged and a min qty reaches; earlier rows are past, later rows plain with mins above qty |
| TierList.NoActiveRowBelowEveryMin | h_app.js:159-168 | below every min all rows are plain, although the price charged is the first row's |
| Numbers.NatToDigits | h_app.js:197 | the decimal digits of a count: non-empty, no leading zero, and their value is the count |
| Numbers.IntToString | h_app.js:197-199 | `String(n)` is never empty: a "-" before the digits of a negative n, the digits alone otherwise; `IntToStringStart` and `ParseIntRoundTrip` state its properties |
| Numbers.TrimStart | h_app.js:190 | parseInt drops exactly the leading white space |
| Numbers.DigitPrefixLength | h_app.js:190 | parseInt reads the longest run of digits |
| Numbers.ParseInt | h_app.js:190 | definition (no contract of its own): leading white space dropped, one optional sign, then the longest digit run, None when there is no digit; `ParseIntRoundTrip`, `ParseIntOfString`, `ParseIntGeneral` and `ParseIntWithoutDigits` state its properties |
| Numbers.ParseIntRoundTrip | h_app.js:190 | parseInt reads back every integer written by String |
| Numbers.ParseIntOfString | h_app.js:190 | white space, a number and trailing text that does not start with a digit parse to that number |
| Numbers.ParseIntWithoutDigits | h_app.js:190 | text without a digit parses to NaN (None) |
| Numbers.ParseIntGeneral | h_app.js:190 | white space, an optional "+" or "-", a digit run that may start with zeros, then text that does not start with a digit: parseInt gives the value of the digit run, negated after "-" |
| Numbers.ParseSignedOfSign | h_app.js:190 | after the leading white space, an optional sign and a digit run read as the signed value of the digits |
| Numbers.ParseIntOfPlusDigit | h_app.js:190 | a plus sign then one digit, after white space and before a non-digit, reads as that digit: parseInt("+5") is 5 |
| Numbers.ParseIntOfLeadingZeros | h_app.js:190 | two zeros then one digit read as that digit: parseInt("007") is 7 |
| Money.Grouped | h_app.js:49 | the grouped digits have a "." before every third digit from the right and nowhere else, and removing the dots gives the digits back |
| Money.FormatMoney | h_app.js:47-51 | the text ends in " kr." and, without its dots, the number part is String(n) |
| Money.FormatMoneyGroups | h_app.js:47-51 | a negative amount starts with "-", and the digits are grouped in threes from the right |
| Money.FormatMoneyFirstTier | h_app.js:47-51 | 25000 is written "25.000 kr." |
| Money.FormatMoneySecondTier | h_app.js:47-51 | 23000 is written "23.000 kr." |
| Money.FormatMoneyZero | h_app.js:47-51 | 0 is written "0 kr." |
| Money.GroupedJoin | h_app.js:49 | three more digits on the right get one "." in front of them and leave the grouping of the rest as it was |
| Money.GroupedThreeGroups | h_app.js:49 | one to three digits followed by two groups of three get exactly two separators |
| Money.FormatMoneyMillion | h_app.js:47-51 | 1234567 is written "1.234.567 kr." |
| Validation.Trim | h_app.js:409-411 | the result starts and ends with a character that is not white space |
| Validation.TrimIsSlice | h_app.js:409-411 | the result is a slice of the input with only white space around it |
| Validation.TrimOfPadded | h_app.js:409-411 | trimming removes exactly the white space around a text whose ends are not white |
| Validation.ValidEmail | h_app.js:53-55 | definition (no contract of its own): no white space, an "@" after the first character and a "." after it, at least one character between them and after the "."; `ValidEmailIsPattern` proves it accepts exactly what `^\S+@\S+\.\S+$` matches |
| Validation.ValidEmailIsPattern | h_app.js:53-55 | the check accepts exactly the strings matching `^\S+@\S+\.\S+$` |
| Validation.EmailWithoutDomainDot | h_app.js:53-55 | "a@b" is refused |
| Validation.ShortEmailAccepted | h_app.js:53-55 | "a@b.is" is accepted |
| Validation.EmailWithInnerSpace | h_app.js:53-55 | "a b@c.is" is refused |
| Validation.PhoneDigits | h_app.js:421 | only digits remain, and no more characters than were typed |
| Validation.PhoneDigitsKeepsDigits | h_app.js:421 | every digit is kept as often as it was typed |
| Validation.PhoneDigitsAppend | h_app.js:421 | dropping non-digits keeps the order of the digits |
| Validation.PhoneDigitsOfDigits | h_app.js:421 | a number typed as digits only is kept unchanged |
| Validation.PhoneIgnoresTrim | h_app.js:411-421 | trimming before dropping the non-digits changes nothing |
| Validation.SeparatedNumberAccepted | h_app.js:421-422 | two runs of digits joined by any non-digit (such as "555-1234") keep exactly their digits, and are accepted exactly when they hold 7 to 15 digits |
| Validation.ShortNumberRefused | h_app.js:422 | "123" is refused |
| Validation.FieldErrors | h_app.js:409-427 | the name is marked exactly when it is blank once trimmed; the e-mail exactly when the trimmed address does not match the pattern; the phone exactly when its digits number fewer than 7 or more than 15 |
| Validation.CheckOrder | h_app.js:409-429 | sending is blocked exactly when some field is marked, with exactly those fields; otherwise the name and e-mail pass and the phone's 7 to 15 digits go out |
| Validation.OnlyEmailMarked | h_app.js:409-429 | with a good name and phone, "a@b" blocks the order with only the e-mail marked |
| Validation.PaddedEmailAccepted | h_app.js:409-429 | "a@b.is" with any white space around it, together with a good name and phone, lets the order through |
| Validation.BlankNameMarked | h_app.js:409-416 | a name of spaces blocks the order and is marked |
| Calculator.ReadQuantityClamps | h_app.js:190 | the quantity is the parsed number when it is not negative, 0 when it is negative, and 0 when there is no number |
| Calculator.ParseIntOrZero | h_app.js:478 | definition (no contract of its own): `parseInt(v \|\| "0", 10) \|\| 0`, the parsed number or 0 when there is none; `ParseIntOrZeroOfString` states its read-back |
| Calculator.ReadQuantity | h_app.js:190 | the quantity is a natural number (its result type): `Math.max(0, …)` of `ParseIntOrZero`; `ReadQuantityClamps` and the lemmas below state its values |
| Calculator.ReadQuantityOfCount | h_app.js:190 | a count written by String reads back as itself |
| Calculator.ReadQuantityOfTyped | h_app.js:190 | leading white space is skipped and reading stops at the first non-digit |
| Calculator.ReadQuantityOfNegative | h_app.js:190 | a negative number reads as 0 |
| Calculator.ReadQuantityWithoutDigits | h_app.js:190 | text without digits reads as 0 |
| Calculator.EmptyQuantityIsZero | h_app.js:190 | an empty #qty reads as 0 |
| Calculator.LettersReadAsZero | h_app.js:190 | "abc" reads as 0 |
| Calculator.TypedTwelveReadsTwelve | h_app.js:190 | " 12abc" reads as 12 |
| Calculator.ReadQuantityOfMinusFive | h_app.js:190 | "-5" reads as 0 |
| Calculator.HiddenFieldsReadBack | h_app.js:190-199 | the hidden fields read back as the clamped quantity, the unit price and their product |
| Calculator.Shown | h_app.js:194-195 | "—" exactly when the unit price is 0; otherwise a text ending in " kr." whose number part, without dots, is String of the amount |
| Calculator.Recompute | h_app.js:190-202 | definition (no contract of its own) of everything `updateTotals` writes; `HiddenFieldsReadBack`, `ShownAmounts`, `RecomputeIsFixpoint` and `OrderPage.UpdateTotals` state its properties |
| Calculator.ShownAmounts | h_app.js:194-195 | "—" is shown exactly when the unit price is 0; otherwise the shown amounts are the unit price and the subtotal in money format |
| Calculator.RecomputeIsFixpoint | h_app.js:190-197 | recomputing from the mirrored quantity gives the same totals |
| Calculator.ZeroPortraits | h_app.js:190-202 | on the shipped tiers a quantity reading as 0 shows 25.000 kr. a portrait, 0 kr. in all, and no marked tier |
| Calculator.FourPortraits | h_app.js:190-199 | on the shipped tiers the hidden subtotal for 4 portraits reads as 100000 |
| Calculator.FivePortraits | h_app.js:190-199 | on the shipped tiers the hidden subtotal for 5 portraits reads as 115000 |
| Calculator.HundredPortraits | h_app.js:190-199 | on the shipped tiers the hidden subtotal for 100 portraits reads as 2300000 |
| Calculator.ParseIntOrZeroOfString | h_app.js:478 | a count written by String reads back through `parseInt(...) \|\| 0` as itself |
| Calculator.StepText | h_app.js:478-479 | definition (no contract of its own): String of the current count plus the step, clamped at 0; `StepReadsBack`, `StepUndo` and `StepDownFromZero` state its properties |
| Calculator.StepReadsBack | h_app.js:478-479 | a step leaves a count that reads back as the current count plus the step, clamped at 0 |
| Calculator.StepUndo | h_app.js:476-480 | stepping back undoes a step that did not reach below 0 |
| Calculator.StepDownFromZero | h_app.js:478-479 | stepping down from 0, or from a negative count, leaves "0" |
| Calculator.OrderPage.constructor | h_app.js:514-516 | on load the tiers are installed and the totals computed for the initial #qty |
| Calculator.OrderPage.RenderTiers | h_app.js:152-177 | the tier list is rebuilt as the rows for activeQty |
| Calculator.OrderPage.UpdateTotals | h_app.js:179-203 | #qty is left unchanged and every written value is the totals for #qty, so a second call writes the same values |
| Calculator.OrderPage.Step | h_app.js:476-481 | #qty becomes the current count plus the step, clamped at 0, and the totals follow it |
| Calculator.OrderPage.QtyInput | h_app.js:484 | #qty keeps the text typed and the totals are those of that text |
| Calculator.OrderPage.QuantityInput | h_app.js:486-490 | #qty and #quantity both become the clamped count, and the totals are those of the text typed |
| Calculator.OrderPage.Submit | h_app.js:400-431 | the decision is the field check; a blocked order changes no calculator value, one that passes recomputes the totals |

## Left out

- The markup of the tier rows: each row keeps only its min, its price and its class.
- The error messages' text, the status box and the error display: the model records which fields are marked.
- Element-presence checks (`if (el)`, `?.`): every element is taken to be present.
- The date: `toLocaleDateString("is-IS")` depends on the clock and the locale, so today's date is a parameter.
- Sending the order:
  - the request, its reply, and `form.reset()` after a successful send use the network;
  - the form data beyond the phone digits is not modelled, because the form markup is not part of this model.
- `data-step` that is not a number: a step button's step is an integer parameter.
- Numbers: integers are unbounded.
  - Floating point, `NaN` and `Math.round` in `formatMoney` are not modelled; the tier prices are integers.
  - `parseInt` loses precision above 2^53, and `String` uses exponent notation from 10^21 on.
- Calculator.ParseIntOrZero: `parseInt` gives -0 for "-0", and `|| 0` turns it into 0; unbounded integers have no -0, so this is only described here.
- The rest of the page: site text injection, FAQ, image modal, menu, parallax, navigation, photo preview and footer year.
- Loading the tier table (`loadContent`): the table is the constructor's parameter, and an empty table is used as is.
