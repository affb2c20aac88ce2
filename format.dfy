/**
 * Formatting helpers: flooring to whole yen, the annual-rate list parser
 * (`3` and `0.03` both mean three percent), and year-month arithmetic on
 * `YYYY-MM` strings.
 */
module Format {
  import opened Wrappers
  import opened JsStrings
  import opened JsNumbers

  /** `yenFloor`: drops the fraction of a yen. */
  function YenFloor(value: real): (r: int)
    ensures r as real <= value < r as real + 1.0
  {
    value.Floor
  }

  // ---------------------------------------------------------------------
  // Rate lists
  // ---------------------------------------------------------------------

  /** `/[\s,、]+/`: white space, commas and ideographic commas separate rates. */
  const RateSeparators: set<char> := JsSpaces + {',', '\U{3001}'}

  /** The non-blank tokens of a rate list, in order. */
  function RateTokens(text: string): (r: seq<string>)
    ensures forall k :: 0 <= k < |r| ==> r[k] != [] && NoneOf(r[k], RateSeparators)
  {
    var pieces := Split(text, RateSeparators);
    TrimmedNonEmptyNoneOf(pieces, RateSeparators);
    TrimmedNonEmpty(pieces)
  }

  lemma {:induction false} TrimmedNonEmptyNoneOf(pieces: seq<string>, cs: set<char>)
    requires forall k :: 0 <= k < |pieces| ==> NoneOf(pieces[k], cs)
    ensures forall k :: 0 <= k < |TrimmedNonEmpty(pieces)| ==> NoneOf(TrimmedNonEmpty(pieces)[k], cs)
  {
    if pieces != [] {
      TrimmedNonEmptyNoneOf(pieces[1..], cs);
      var t := Trim(pieces[0]);
      var i, j :| 0 <= i <= j <= |pieces[0]| && t == pieces[0][i..j];
      assert NoneOf(t, cs);
    }
  }

  /**
   * One token's rate: a finite value of 1 or more is a percentage and is
   * divided by 100, a smaller one is already a fraction; anything that is
   * not finite becomes NaN.
   */
  function RateValue(n: JsNum): (r: JsNum)
    ensures r.Finite? <==> n.Finite?
    ensures !r.Finite? ==> r.NaN?
    ensures r.Finite? && n.value >= 1.0 ==> r.value * 100.0 == n.value
    ensures r.Finite? && n.value < 1.0 ==> r.value == n.value
  {
    match n
    case Finite(v) => Finite(if v >= 1.0 then v / 100.0 else v)
    case _ => NaN
  }

  /** `tokens.map(...)`: each token's rate. */
  function TokenRates(tokens: seq<string>): (r: seq<JsNum>)
    ensures |r| == |tokens| && forall k :: 0 <= k < |tokens| ==> r[k] == RateValue(Number(tokens[k]))
  {
    seq(|tokens|, k requires 0 <= k < |tokens| => RateValue(Number(tokens[k])))
  }

  /** `.filter((v) => !Number.isNaN(v))`. */
  function DropNaN(xs: seq<JsNum>): (r: seq<JsNum>)
    ensures |r| <= |xs|
    ensures forall k :: 0 <= k < |r| ==> !r[k].NaN? && r[k] in xs
    ensures forall k :: 0 <= k < |xs| && !xs[k].NaN? ==> xs[k] in r
  {
    if xs == [] then []
    else (if xs[0].NaN? then [] else [xs[0]]) + DropNaN(xs[1..])
  }

  /** `.filter((v) => Number.isFinite(v))`. */
  function KeepFinite(xs: seq<JsNum>): (r: seq<JsNum>)
    ensures |r| <= |xs|
    ensures forall k :: 0 <= k < |r| ==> r[k].Finite? && r[k] in xs
  {
    if xs == [] then []
    else (if xs[0].Finite? then [xs[0]] else []) + KeepFinite(xs[1..])
  }

  /** Filtering keeps the order: it distributes over concatenation. */
  lemma {:induction false} DropNaNConcat(xs: seq<JsNum>, ys: seq<JsNum>)
    ensures DropNaN(xs + ys) == DropNaN(xs) + DropNaN(ys)
  {
    if xs == [] {
      assert xs + ys == ys;
    } else {
      assert (xs + ys)[1..] == xs[1..] + ys;
      DropNaNConcat(xs[1..], ys);
    }
  }

  /** `normalizeRates`: the rates of the list's tokens, in order, with the unreadable ones dropped. */
  function NormalizeRates(input: string): (r: seq<JsNum>)
    ensures |r| <= |RateTokens(input)|
    ensures forall k :: 0 <= k < |r| ==> r[k].Finite?
  {
    var rates := TokenRates(RateTokens(input));
    DropNaNFinite(rates);
    DropNaN(rates)
  }

  /** On lists of finite values and NaNs, dropping NaN and keeping the finite values agree. */
  lemma {:induction false} DropNaNFinite(xs: seq<JsNum>)
    requires forall k :: 0 <= k < |xs| ==> xs[k].Finite? || xs[k].NaN?
    ensures DropNaN(xs) == KeepFinite(xs)
  {
    if xs != [] {
      DropNaNFinite(xs[1..]);
    }
  }

  /** Dropping NaN from a list without NaN changes nothing. */
  lemma {:induction false} DropNaNOfNumbers(xs: seq<JsNum>)
    requires forall k :: 0 <= k < |xs| ==> !xs[k].NaN?
    ensures DropNaN(xs) == xs
  {
    if xs != [] {
      DropNaNOfNumbers(xs[1..]);
      assert [xs[0]] + xs[1..] == xs;
    }
  }

  /** `String(v)` of each integer rate. */
  function RateTexts(rates: seq<int>): (r: seq<string>)
    ensures |r| == |rates| && forall k :: 0 <= k < |rates| ==> r[k] == IntToString(rates[k])
  {
    seq(|rates|, k requires 0 <= k < |rates| => IntToString(rates[k]))
  }

  /** Every character of a printed integer is a digit or `-`, neither of which separates rates. */
  lemma RateTextsSeparatorFree(rates: seq<int>)
    ensures forall k :: 0 <= k < |rates| ==> RateTexts(rates)[k] != [] && NoneOf(RateTexts(rates)[k], RateSeparators)
  {
    forall k | 0 <= k < |rates|
      ensures NoneOf(IntToString(rates[k]), RateSeparators)
    {
      var t := IntToString(rates[k]);
      IntToStringChars(rates[k]);
      forall j | 0 <= j < |t|
        ensures t[j] !in RateSeparators
      {
        JsSpacesMembers(t[j]);
      }
    }
  }

  /** A separator in front adds only an empty piece, which is dropped: a run of separators acts as one. */
  lemma RateTokensSkipSeparator(c: char, text: string)
    requires c in RateSeparators
    ensures RateTokens([c] + text) == RateTokens(text)
  {
    SplitAfterPrefix([], c, text, RateSeparators);
    assert [] + [c] + text == [c] + text;
    var pieces := Split([c] + text, RateSeparators);
    assert pieces[1..] == Split(text, RateSeparators);
  }

  /**
   * Non-empty tokens free of separators, joined with any one separator,
   * are read back as those tokens, in order.
   */
  lemma RateTokensJoined(texts: seq<string>, c: char)
    requires texts != [] && c in RateSeparators
    requires forall k :: 0 <= k < |texts| ==> texts[k] != [] && NoneOf(texts[k], RateSeparators)
    ensures RateTokens(Join(texts, [c])) == texts
  {
    SplitJoin(texts, c, RateSeparators);
    forall k | 0 <= k < |texts|
      ensures IsTrimmed(texts[k])
    {
      JsSpacesMembers(texts[k][0]);
      JsSpacesMembers(texts[k][|texts[k]| - 1]);
    }
    TrimmedNonEmptyKeeps(texts);
  }

  /**
   * Integer rates written out and joined with any separator normalise to
   * their rates in order: 1 and above as percentages, below 1 as they are.
   */
  lemma NormalizeRatesJoined(rates: seq<int>, c: char)
    requires rates != [] && c in RateSeparators
    ensures NormalizeRates(Join(RateTexts(rates), [c])) ==
            seq(|rates|, k requires 0 <= k < |rates| => RateValue(Finite(rates[k] as real)))
  {
    var texts := RateTexts(rates);
    RateTextsSeparatorFree(rates);
    RateTokensJoined(texts, c);
    var values := TokenRates(texts);
    forall k | 0 <= k < |rates|
      ensures values[k] == RateValue(Finite(rates[k] as real))
    {
      NumberOfIntToString(rates[k]);
    }
    DropNaNOfNumbers(values);
  }

  datatype ParsedRates = ParsedRates(rates: seq<JsNum>, rawTokens: seq<string>)

  /**
   * `parseRatesText`: the raw tokens are every non-blank token; the rates
   * are the finite ones among their values, in order. They coincide with
   * `normalizeRates` of the same text.
   */
  function ParseRatesText(text: string): (r: ParsedRates)
    ensures r.rates == NormalizeRates(text)
    ensures r.rawTokens == RateTokens(text)
    ensures |r.rates| <= |r.rawTokens|
    ensures forall k :: 0 <= k < |r.rawTokens| ==> r.rawTokens[k] != [] && NoneOf(r.rawTokens[k], RateSeparators)
  {
    var tokens := RateTokens(text);
    var rates := TokenRates(tokens);
    DropNaNFinite(rates);
    ParsedRates(KeepFinite(rates), tokens)
  }

  // ---------------------------------------------------------------------
  // Year-month arithmetic
  // ---------------------------------------------------------------------

  /**
   * `diffMonths(startYm, endYm)`: the months from one `YYYY-MM` to
   * another. A missing month part makes it NaN.
   */
  function DiffMonths(startYm: string, endYm: string): (r: JsNum)
  {
    PartsDiff(YearMonth(startYm), YearMonth(endYm))
  }

  /** `(eYear - sYear) * 12 + (eMonth - sMonth)`. */
  function PartsDiff(start: (JsNum, JsNum), end: (JsNum, JsNum)): (r: JsNum)
  {
    Add(Times(Sub(end.0, start.0), 12), Sub(end.1, start.1))
  }

  lemma PartsDiffInts(sYear: int, sMonth: int, eYear: int, eMonth: int)
    ensures PartsDiff((Finite(sYear as real), Finite(sMonth as real)), (Finite(eYear as real), Finite(eMonth as real)))
         == Finite(((eYear - sYear) * 12 + (eMonth - sMonth)) as real)
  {
  }

  /** Two year-months with integer parts are a whole number of months apart. */
  lemma DiffMonthsInteger(startYm: string, endYm: string, sYear: int, sMonth: int, eYear: int, eMonth: int)
    requires YearMonth(startYm) == (Finite(sYear as real), Finite(sMonth as real))
    requires YearMonth(endYm) == (Finite(eYear as real), Finite(eMonth as real))
    ensures DiffMonths(startYm, endYm) == Finite(((eYear - sYear) * 12 + (eMonth - sMonth)) as real)
  {
    PartsDiffInts(sYear, sMonth, eYear, eMonth);
  }

  /** A year-month without a month part makes the difference NaN. */
  lemma DiffMonthsMissingPart(startYm: string, endYm: string)
    requires '-' !in startYm || '-' !in endYm
    ensures DiffMonths(startYm, endYm).NaN?
  {
  }

  /** A year-month's month count `year * 12 + (month - 1)`, when both parts are finite. */
  function MonthIndex(ym: string): (r: real)
    requires YearMonth(ym).0.Finite? && YearMonth(ym).1.Finite?
  {
    YearMonth(ym).0.value * 12.0 + (YearMonth(ym).1.value - 1.0)
  }

  /** With finite parts, the difference is the difference of the month counts. */
  lemma DiffMonthsIndex(a: string, b: string)
    requires YearMonth(a).0.Finite? && YearMonth(a).1.Finite?
    requires YearMonth(b).0.Finite? && YearMonth(b).1.Finite?
    ensures DiffMonths(a, b) == Finite(MonthIndex(b) - MonthIndex(a))
  {
  }

  /** A year-month is zero months from itself. */
  lemma DiffMonthsSelf(a: string)
    requires YearMonth(a).0.Finite? && YearMonth(a).1.Finite?
    ensures DiffMonths(a, a) == Finite(0.0)
  {
    DiffMonthsIndex(a, a);
  }

  /** Swapping the arguments negates the difference, for every pair of strings. */
  lemma DiffMonthsAntisymmetric(a: string, b: string)
    ensures DiffMonths(a, b) == Negate(DiffMonths(b, a))
  {
    var aYear, aMonth := YearMonth(a).0, YearMonth(a).1;
    var bYear, bMonth := YearMonth(b).0, YearMonth(b).1;
    SubSwap(bYear, aYear);
    SubSwap(bMonth, aMonth);
    NegateTimes(Sub(aYear, bYear), 12);
    NegateAdd(Times(Sub(aYear, bYear), 12), Sub(aMonth, bMonth));
  }

  /** `x % 12` as JavaScript computes it: the remainder takes the sign of `x`. */
  function JsRem12(x: int): (r: int)
    ensures -12 < r < 12
    ensures x >= 0 ==> r == x % 12
  {
    if x >= 0 then x % 12 else -((-x) % 12)
  }

  /**
   * The `[newYear, newMonth]` of a month count: `Math.floor(total / 12)` and
   * `(total % 12) + 1`. For counts from year 0 on, the month is a calendar
   * month and the pair names the count back; before year 0 the month is 0
   * or negative unless the count is a whole number of years.
   */
  function YearAndMonth(total: int): (r: (int, int))
    ensures total >= 0 ==> r.0 >= 0 && 1 <= r.1 <= 12 && r.0 * 12 + r.1 - 1 == total
    ensures total < 0 && total % 12 != 0 ==> r.1 < 1
  {
    (total / 12, JsRem12(total) + 1)
  }

  /** `year * 12 + (month - 1) + months`. */
  function MonthCount(year: JsNum, month: JsNum, months: int): (r: JsNum)
    ensures month.NaN? ==> r.NaN?
    ensures year.Finite? && month.Finite? ==> r == Finite(year.value * 12.0 + (month.value - 1.0) + months as real)
  {
    Add(Add(Times(year, 12), Sub(month, Finite(1.0))), Finite(months as real))
  }

  /**
   * The `YYYY-MM` text `addMonths` builds from a month count: year and
   * month zero-padded to four and two places. A NaN or infinite count
   * renders as the text JavaScript gives it (`0NaN-NaN`, `Infinity-NaN`,
   * `-Infinity-NaN`); None stands for a fractional count, whose rendering
   * is not modelled.
   */
  function CountText(total: JsNum): (r: Option<string>)
    ensures total.NaN? ==> r == Some("0NaN-NaN")
  {
    match total
    case NaN => Some("0NaN-NaN")
    case PosInf => Some("Infinity-NaN")
    case NegInf => Some("-Infinity-NaN")
    case Finite(t) =>
      if t.Floor as real == t then
        var next := YearAndMonth(t.Floor);
        Some(YmText(next.0, next.1))
      else None
  }

  /** `addMonths(ym, months)`: the year-month `months` months after `ym`. */
  function AddMonths(ym: string, months: int): (r: Option<string>)
    ensures YearMonth(ym).1.NaN? ==> r == Some("0NaN-NaN")
  {
    CountText(MonthCount(YearMonth(ym).0, YearMonth(ym).1, months))
  }

  /** A zero-padded rendering of `n` reads back as `n`. */
  lemma NumberOfPadded(n: nat, width: nat)
    ensures NoneOf(PadStart(NatToString(n), width, '0'), {'-'})
    ensures Number(PadStart(NatToString(n), width, '0')) == Finite(n as real)
  {
    var digits := NatToString(n);
    var s := PadStart(digits, width, '0');
    var z := s[..|s| - |digits|];
    PadStartParts(digits, width, '0');
    assert s == z + digits by {
      assert s[|s| - |digits|..] == digits;
    }
    assert forall k :: 0 <= k < |z| ==> z[k] == '0';
    NatToStringValue(n);
    LeadingZerosValue(z, digits);
    DigitsUnsigned(s);
    NumberOfDigits(s);
  }

  /** The `YYYY-MM` text of a year and a month: each zero-padded, a negative one after its sign. */
  function YmText(year: int, month: int): (r: string) {
    PadStart(IntToString(year), 4, '0') + "-" + PadStart(IntToString(month), 2, '0')
  }

  /** With integer parts, `addMonths` renders the month count `y * 12 + m - 1 + months`. */
  lemma AddMonthsText(ym: string, y: int, m: int, months: int, total: int)
    requires YearMonth(ym) == (Finite(y as real), Finite(m as real))
    requires total == y * 12 + m - 1 + months
    ensures AddMonths(ym, months) == CountText(Finite(total as real))
  {
    MonthCountOfInts(YearMonth(ym).0, YearMonth(ym).1, y, m, months, total);
  }

  /** With integer parts, the month count is the integer `y * 12 + m - 1 + months`. */
  lemma MonthCountOfInts(year: JsNum, month: JsNum, y: int, m: int, months: int, total: int)
    requires year == Finite(y as real) && month == Finite(m as real)
    requires total == y * 12 + m - 1 + months
    ensures MonthCount(year, month, months) == Finite(total as real)
  {
  }

  /** A whole month count renders as the year-month text of its year and month. */
  lemma CountTextOfCount(total: int)
    ensures CountText(Finite(total as real)) == Some(YmText(YearAndMonth(total).0, YearAndMonth(total).1))
  {
    assert (total as real).Floor == total;
  }

  /** A rendered year-month from year 0 on reads back as its year and month. */
  lemma YmTextParts(year: nat, month: nat)
    ensures YearMonth(YmText(year, month)) == (Finite(year as real), Finite(month as real))
  {
    var yearText := PadStart(IntToString(year), 4, '0');
    var monthText := PadStart(IntToString(month), 2, '0');
    NumberOfPadded(year, 4);
    NumberOfPadded(month, 2);
    SplitAfterPrefix(yearText, '-', monthText, {'-'});
    SplitNoSeparator(monthText, {'-'});
    assert YmText(year, month) == yearText + ['-'] + monthText;
    YearMonthSplit(YmText(year, month));
  }

  /** Two year-months whose month counts differ by `months` are `months` apart. */
  lemma PartsDiffOfCounts(y: int, m: int, y2: int, m2: int, months: int)
    requires y2 * 12 + m2 - 1 == y * 12 + m - 1 + months
    ensures PartsDiff((Finite(y as real), Finite(m as real)), (Finite(y2 as real), Finite(m2 as real))) == Finite(months as real)
  {
    assert (y2 - y) * 12 + (m2 - m) == months;
    PartsDiffInts(y, m, y2, m2);
  }

  /** `addMonths` renders the year and month of the month count `total`. */
  lemma AddMonthsRendered(ym: string, y: int, m: int, months: int, total: int)
    requires YearMonth(ym) == (Finite(y as real), Finite(m as real))
    requires total == y * 12 + m - 1 + months
    ensures AddMonths(ym, months) == Some(YmText(YearAndMonth(total).0, YearAndMonth(total).1))
  {
    AddMonthsText(ym, y, m, months, total);
    CountTextOfCount(total);
  }

  /** The rendered year-month of a count from year 0 on is `months` after `ym`. */
  lemma DiffMonthsRendered(ym: string, y: int, m: int, months: int, total: int)
    requires YearMonth(ym) == (Finite(y as real), Finite(m as real))
    requires total == y * 12 + m - 1 + months && total >= 0
    ensures DiffMonths(ym, YmText(YearAndMonth(total).0, YearAndMonth(total).1)) == Finite(months as real)
  {
    var next := YearAndMonth(total);
    YmTextParts(next.0, next.1);
    PartsDiffOfCounts(y, m, next.0, next.1, months);
  }

  /** Adding months and then measuring the distance gives the months back, for dates from year 0 on. */
  lemma AddMonthsDiffMonths(ym: string, y: int, m: int, months: int)
    requires YearMonth(ym) == (Finite(y as real), Finite(m as real))
    requires y * 12 + m - 1 + months >= 0
    ensures AddMonths(ym, months).Some?
    ensures DiffMonths(ym, AddMonths(ym, months).value) == Finite(months as real)
  {
    var total := y * 12 + m - 1 + months;
    AddMonthsRendered(ym, y, m, months, total);
    DiffMonthsRendered(ym, y, m, months, total);
  }
}
