/**
 * ECMAScript numbers as the modelled code reads them from text: `Number(s)`
 * on a string, `parseInt(s, 10)`, `Number.isInteger`, `Number.isFinite` and
 * `Math.trunc`. Values are exact reals; the rounding of IEEE doubles is not
 * modelled.
 */
module JsNumbers {
  import opened Wrappers
  import opened JsStrings

  /** A JavaScript number. */
  datatype JsNum = Finite(value: real) | PosInf | NegInf | NaN

  function Pow10(k: nat): (r: nat)
    ensures r >= 1
  {
    if k == 0 then 1 else 10 * Pow10(k - 1)
  }

  /**
   * An unsigned decimal literal without exponent: `Infinity`, or digits with
   * at most one decimal point and at least one digit (`ddd`, `ddd.`,
   * `ddd.ddd`, `.ddd`). Anything else is NaN.
   */
  function UnsignedDecimal(t: string): (r: JsNum)
    ensures r.Finite? ==> r.value >= 0.0
  {
    if t == "Infinity" then PosInf else ScanDecimal(t, 0, false, false, 0, 0)
  }

  /** `m / 10^k`. */
  function Shifted(m: nat, k: nat): (r: real)
    ensures r >= 0.0
  {
    if k == 0 then m as real else Shifted(m, k - 1) / 10.0
  }

  /**
   * Reads `t[i..]` as the rest of a decimal literal: `digits` tells whether
   * a digit was seen, `dot` whether the point was, `mantissa` is the value of
   * the digits read so far and `scale` the number of them after the point.
   */
  function ScanDecimal(t: string, i: nat, digits: bool, dot: bool, mantissa: nat, scale: nat): (r: JsNum)
    requires i <= |t|
    ensures r.Finite? ==> r.value >= 0.0
    decreases |t| - i
  {
    if i == |t| then (if digits then Finite(Shifted(mantissa, scale)) else NaN)
    else if IsDigit(t[i]) then
      ScanDecimal(t, i + 1, true, dot, mantissa * 10 + DigitValue(t[i]), if dot then scale + 1 else scale)
    else if t[i] == '.' && !dot then ScanDecimal(t, i + 1, digits, true, mantissa, scale)
    else NaN
  }

  function Negate(n: JsNum): (r: JsNum) {
    match n
    case Finite(v) => Finite(-v)
    case PosInf => NegInf
    case NegInf => PosInf
    case NaN => NaN
  }

  /**
   * `Number(s)` for a string: white space is trimmed, the empty string is 0,
   * an optional sign precedes an unsigned decimal literal.
   */
  function Number(s: string): (r: JsNum)
    ensures Trim(s) == [] ==> r == Finite(0.0)
  {
    var t := Trim(s);
    if t == [] then Finite(0.0)
    else
      var magnitude := UnsignedDecimal(if t[0] == '-' || t[0] == '+' then t[1..] else t);
      if t[0] == '-' then Negate(magnitude) else magnitude
  }

  /** `Number.isInteger(n)`. */
  predicate IsInteger(n: JsNum) {
    n.Finite? && n.value.Floor as real == n.value
  }

  /** `Math.trunc(v)` for a finite `v`: rounds toward zero. */
  function Trunc(v: real): (r: int)
    ensures v >= 0.0 ==> r as real <= v < r as real + 1.0
    ensures v < 0.0 ==> r as real - 1.0 < v <= r as real
  {
    if v >= 0.0 then v.Floor else -((-v).Floor)
  }

  /** Scanning the rest of an all-digit string continues its value. */
  lemma {:induction false} ScanDigits(t: string, i: nat)
    requires AllDigits(t) && 0 < |t| && i <= |t|
    ensures ScanDecimal(t, i, i > 0, false, DigitsValue(t[..i]), 0) == Finite(DigitsValue(t) as real)
    decreases |t| - i
  {
    if i == |t| {
      assert t[..i] == t;
    } else {
      assert t[..i + 1][..i] == t[..i];
      ScanDigits(t, i + 1);
    }
  }

  /** A non-empty string of decimal digits is an unsigned literal of its value. */
  lemma UnsignedDigits(t: string)
    requires t != [] && AllDigits(t)
    ensures UnsignedDecimal(t) == Finite(DigitsValue(t) as real)
  {
    assert t != "Infinity" by {
      assert IsDigit(t[0]);
    }
    assert t[..0] == [];
    ScanDigits(t, 0);
  }

  /** A non-empty string of decimal digits reads as its value. */
  lemma NumberOfDigits(s: string)
    requires s != [] && AllDigits(s)
    ensures Number(s) == Finite(DigitsValue(s) as real)
  {
    assert !IsJsSpace(s[0]) && !IsJsSpace(s[|s| - 1]);
    assert Trim(s) == s;
    assert s[0] != '-' && s[0] != '+';
    UnsignedDigits(s);
  }

  /** Reading back the decimal rendering of an integer gives that integer. */
  lemma NumberOfIntToString(i: int)
    ensures Number(IntToString(i)) == Finite(i as real)
  {
    var n := if i < 0 then -i else i;
    var digits := NatToString(n);
    NatToStringValue(n);
    if i < 0 {
      var s := IntToString(i);
      assert s == "-" + digits && s[1..] == digits;
      assert !IsJsSpace(s[0]) && !IsJsSpace(s[|s| - 1]);
      assert Trim(s) == s;
      UnsignedDigits(digits);
    } else {
      NumberOfDigits(digits);
    }
  }

  /** Leading zeros do not change the value of a digit string. */
  lemma {:induction false} LeadingZerosValue(z: string, s: string)
    requires forall k :: 0 <= k < |z| ==> z[k] == '0'
    requires AllDigits(s)
    ensures AllDigits(z + s) && DigitsValue(z + s) == DigitsValue(s)
    decreases |s|, |z|
  {
    var w := z + s;
    if s == [] {
      assert w == z;
      if z != [] {
        LeadingZerosValue(z[..|z| - 1], []);
        assert z[..|z| - 1] + [] == z[..|z| - 1];
      }
    } else {
      LeadingZerosValue(z, s[..|s| - 1]);
      assert w[..|w| - 1] == z + s[..|s| - 1];
    }
  }

  function LeadingDigits(s: string): (r: string)
    ensures AllDigits(r) && |r| <= |s| && r == s[..|r|]
    ensures |r| < |s| ==> !IsDigit(s[|r|])
  {
    if s != [] && IsDigit(s[0]) then [s[0]] + LeadingDigits(s[1..]) else ""
  }

  /**
   * `parseInt(s, 10)`: leading white space, an optional sign, then the
   * longest run of decimal digits; None (NaN) when there is no digit.
   */
  function ParseIntPrefix(s: string): (r: Option<int>)
    ensures r.Some? ==> exists k :: 0 <= k < |s| && IsDigit(s[k])
  {
    var t := TrimStart(s);
    var negative := t != [] && t[0] == '-';
    var body := if t != [] && (t[0] == '-' || t[0] == '+') then t[1..] else t;
    var digits := LeadingDigits(body);
    if digits == [] then None
    else
      assert IsDigit(body[0]) && body[0] in s;
      var v: int := DigitsValue(digits);
      Some(if negative then -v else v)
  }

  /** The longest run of leading digits of a digit string is all of it. */
  lemma {:induction false} LeadingDigitsAll(s: string)
    requires AllDigits(s)
    ensures LeadingDigits(s) == s
  {
    if s != [] {
      LeadingDigitsAll(s[1..]);
    }
  }

  /** `parseInt` reads a non-empty string of digits as its decimal value. */
  lemma ParseIntOfDigits(s: string)
    requires s != [] && AllDigits(s)
    ensures ParseIntPrefix(s) == Some(DigitsValue(s))
  {
    assert SpacesFrom(s, 0) == 0;
    assert TrimStart(s) == s;
    LeadingDigitsAll(s);
  }

  /** `a + b` on JavaScript numbers. */
  function Add(a: JsNum, b: JsNum): (r: JsNum)
    ensures a.Finite? && b.Finite? ==> r == Finite(a.value + b.value)
    ensures a.NaN? || b.NaN? ==> r.NaN?
  {
    match (a, b)
    case (Finite(x), Finite(y)) => Finite(x + y)
    case (NaN, _) => NaN
    case (_, NaN) => NaN
    case (PosInf, NegInf) => NaN
    case (NegInf, PosInf) => NaN
    case (PosInf, _) => PosInf
    case (_, PosInf) => PosInf
    case (NegInf, _) => NegInf
    case (_, NegInf) => NegInf
  }

  /** `a - b` on JavaScript numbers. */
  function Sub(a: JsNum, b: JsNum): (r: JsNum) {
    Add(a, Negate(b))
  }

  lemma NegateAdd(a: JsNum, b: JsNum)
    ensures Negate(Add(a, b)) == Add(Negate(a), Negate(b))
  {
  }

  /** `-(a - b)` is `b - a`. */
  lemma SubSwap(a: JsNum, b: JsNum)
    ensures Sub(a, b) == Negate(Sub(b, a))
  {
    NegateAdd(b, Negate(a));
  }

  /** `a * k` for a positive integer constant `k`. */
  function Times(a: JsNum, k: nat): (r: JsNum)
    requires k > 0
    ensures a.Finite? <==> r.Finite?
    ensures a.Finite? ==> r.value == a.value * k as real
  {
    match a
    case Finite(x) => Finite(x * k as real)
    case _ => a
  }

  lemma NegateTimes(a: JsNum, k: nat)
    requires k > 0
    ensures Times(Negate(a), k) == Negate(Times(a, k))
  {
  }

  /** `Math.max(0, a)`: NaN stays NaN. */
  function Max0(a: JsNum): (r: JsNum)
    ensures r.NaN? <==> a.NaN?
    ensures r.Finite? ==> r.value >= 0.0
  {
    match a
    case Finite(x) => Finite(if x > 0.0 then x else 0.0)
    case NegInf => Finite(0.0)
    case _ => a
  }

  /** `i >= a` for an integer `i`: false whenever `a` is NaN. */
  predicate AtLeast(i: int, a: JsNum) {
    match a
    case Finite(x) => i as real >= x
    case NegInf => true
    case _ => false
  }

  /** `a < i` for an integer `i`: false whenever `a` is NaN. */
  predicate Less(a: JsNum, i: int) {
    match a
    case Finite(x) => x < i as real
    case NegInf => true
    case _ => false
  }

  /** `i < a` for an integer `i`: false whenever `a` is NaN. */
  predicate Below(i: int, a: JsNum) {
    match a
    case Finite(x) => i as real < x
    case PosInf => true
    case _ => false
  }

  /**
   * `ym.split("-").map(Number)` destructured into `[year, month]`: the text
   * before the first `-` and the text between it and the next `-`. A missing
   * month part is `undefined`, which arithmetic turns into NaN.
   */
  function YearMonth(ym: string): (r: (JsNum, JsNum))
    ensures '-' !in ym ==> r.1.NaN?
  {
    var i := NextIndex(ym, '-', 0);
    (Number(ym[..i]), if i < |ym| then Number(ym[i + 1..NextIndex(ym, '-', i + 1)]) else NaN)
  }

  /** `YearMonth` reads the first two pieces of splitting at every `-`. */
  lemma YearMonthSplit(ym: string)
    ensures var parts := Split(ym, {'-'});
            YearMonth(ym) == (Number(parts[0]), if |parts| >= 2 then Number(parts[1]) else NaN)
  {
    var i := NextIndex(ym, '-', 0);
    var parts := Split(ym, {'-'});
    DashPieces(ym);
    if i < |ym| {
      var j := NextIndex(ym, '-', i + 1);
      assert parts[1] == ym[i + 1..j];
    }
  }

  /** The first two pieces of `ym.split("-")` by index. */
  lemma DashPieces(ym: string)
    ensures Split(ym, {'-'})[0] == ym[..NextIndex(ym, '-', 0)]
    ensures |Split(ym, {'-'})| >= 2 <==> NextIndex(ym, '-', 0) < |ym|
    ensures NextIndex(ym, '-', 0) < |ym| ==>
              Split(ym, {'-'})[1] == ym[NextIndex(ym, '-', 0) + 1..NextIndex(ym, '-', NextIndex(ym, '-', 0) + 1)]
  {
    SplitHead(ym, '-');
    var i := NextIndex(ym, '-', 0);
    if i < |ym| {
      var parts, rest := Split(ym, {'-'}), Split(ym[i + 1..], {'-'});
      SplitFirstFrom(ym, '-', i + 1);
      assert parts[1] == parts[1..][0] == rest[0];
    }
  }
}
