/**
 * The calculation engine: the months between two `YYYY-MM` strings, the
 * split of a deposit between the tax-exempt (NISA) account and the taxable
 * account, and the 480-month simulation that grows, tops up and draws down
 * both accounts.
 *
 * Balances are whole yen (`int`). The monthly rate is a parameter: the
 * engine derives it as `(1 + annualRate)^(1/12) - 1` in floating point,
 * which the model does not reproduce; growth is computed on exact reals.
 */
module CalcEngine {
  import opened Wrappers
  import opened JsStrings
  import opened JsNumbers

  /** The lifetime cap on what may be deposited into the tax-exempt account. */
  const NisaLimit: int := 18_000_000
  /** The tax taken from the taxable account's monthly gain. */
  const TaxRate: real := 0.20315
  /** The simulation always runs this many months. */
  const MaxMonths: nat := 480

  /** A scenario as the engine reads it; an absent optional field is None. */
  datatype Scenario = Scenario(
    name: string,
    startYm: string,
    initialLump: real,
    monthlyInvest: real,
    withdrawStartYm: Option<string>,
    monthlyWithdraw: Option<real>,
    ratesPercent: seq<real>)

  /** The state the simulation carries from month to month. */
  datatype Accounts = Accounts(balNisa: int, balTax: int, nisaUsed: int)

  /** One element of `ym.split("-").map((v) => parseInt(v, 10))`, or `undefined` past its end. */
  datatype Part = Int(v: int) | NaNPart | Undefined

  function ParsePart(s: string): (r: Part)
    ensures !r.Undefined?
  {
    match ParseIntPrefix(s)
    case Some(v) => Int(v)
    case None => NaNPart
  }

  /** The first two elements of `ym.split("-")`, the second None when there is no dash. */
  function FirstTwo(ym: string): (r: (string, Option<string>))
    ensures r.1.None? <==> '-' !in ym
  {
    var i := NextIndex(ym, '-', 0);
    (ym[..i], if i < |ym| then Some(ym[i + 1..NextIndex(ym, '-', i + 1)]) else None)
  }

  /** The first two elements of `ym.split("-")`, each read with `parseInt`. */
  function IntParts(ym: string): (r: (Part, Part))
    ensures !r.0.Undefined?
    ensures r.1.Undefined? <==> '-' !in ym
  {
    var pieces := FirstTwo(ym);
    (ParsePart(pieces.0), if pieces.1.Some? then ParsePart(pieces.1.value) else Undefined)
  }

  /**
   * `diffMonths(fromYm, toYm)`: 0 when either string is empty or one of the
   * four parts is not a number; NaN when a part is missing altogether
   * (`undefined` passes the NaN test but poisons the arithmetic); otherwise
   * `(toYear - fromYear) * 12 + (toMonth - fromMonth)`.
   */
  function DiffMonths(fromYm: string, toYm: string): (r: JsNum)
    ensures fromYm == [] || toYm == [] ==> r == Finite(0.0)
    ensures fromYm != [] && toYm != [] && NaNIn(IntParts(fromYm), IntParts(toYm)) ==> r == Finite(0.0)
    ensures r.NaN? <==> fromYm != [] && toYm != [] && !NaNIn(IntParts(fromYm), IntParts(toYm)) &&
                        ('-' !in fromYm || '-' !in toYm)
  {
    if fromYm == [] || toYm == [] then Finite(0.0)
    else PartsDiff(IntParts(fromYm), IntParts(toYm))
  }

  /** One of the four parts is a number that `parseInt` could not read. */
  predicate NaNIn(from: (Part, Part), to: (Part, Part)) {
    from.0.NaNPart? || from.1.NaNPart? || to.0.NaNPart? || to.1.NaNPart?
  }

  /** The difference of two year-months given as parsed parts; the years are never `undefined`. */
  function PartsDiff(from: (Part, Part), to: (Part, Part)): (r: JsNum)
    requires !from.0.Undefined? && !to.0.Undefined?
    ensures r.NaN? || r.Finite?
  {
    if from.0.NaNPart? || from.1.NaNPart? || to.0.NaNPart? || to.1.NaNPart? then Finite(0.0)
    else if from.1.Undefined? || to.1.Undefined? then NaN
    else Finite(((to.0.v - from.0.v) * 12 + (to.1.v - from.1.v)) as real)
  }

  /** `year + "-" + month` splits at its one dash into the two digit strings. */
  lemma DashedParts(year: string, month: string)
    requires year != [] && AllDigits(year) && month != [] && AllDigits(month)
    ensures IntParts(year + "-" + month) == (Int(DigitsValue(year)), Int(DigitsValue(month)))
  {
    DigitsUnsigned(year);
    DigitsUnsigned(month);
    IntPartsAround(year, month);
    ParseIntOfDigits(year);
    ParseIntOfDigits(month);
  }

  /** A string with one dash has the text before it and the text after it as its parts. */
  lemma IntPartsAround(a: string, b: string)
    requires NoneOf(a, {'-'}) && NoneOf(b, {'-'})
    ensures IntParts(a + "-" + b) == (ParsePart(a), ParsePart(b))
  {
    FirstTwoAround(a, b);
  }

  /** Split at its one dash, a string gives the text before it and the text after it. */
  lemma FirstTwoAround(a: string, b: string)
    requires NoneOf(a, {'-'}) && NoneOf(b, {'-'})
    ensures FirstTwo(a + "-" + b) == (a, Some(b))
  {
    assert a + "-" + b == a + ['-'] + b;
    NextIndexAround(a, '-', b);
    AroundSlices(a, '-', b);
  }

  /** Year-months whose parts all parse are `(toYear - fromYear) * 12 + (toMonth - fromMonth)` apart. */
  lemma DiffMonthsOfParts(fromYm: string, toYm: string, fromYear: int, fromMonth: int, toYear: int, toMonth: int)
    requires fromYm != [] && IntParts(fromYm) == (Int(fromYear), Int(fromMonth))
    requires toYm != [] && IntParts(toYm) == (Int(toYear), Int(toMonth))
    ensures DiffMonths(fromYm, toYm) == Finite(((toYear * 12 + toMonth) - (fromYear * 12 + fromMonth)) as real)
  {
  }

  /** A non-empty year without a month part gives NaN against a full year-month. */
  lemma DiffMonthsMissingMonth(fromYm: string, toYear: string, toMonth: string)
    requires fromYm != [] && '-' !in fromYm && ParseIntPrefix(fromYm).Some?
    requires toYear != [] && AllDigits(toYear) && toMonth != [] && AllDigits(toMonth)
    ensures DiffMonths(fromYm, toYear + "-" + toMonth).NaN?
  {
    DashedParts(toYear, toMonth);
    IntPartsNoDash(fromYm);
  }

  /** A string without a dash is one part: the year, with the month `undefined`. */
  lemma IntPartsNoDash(ym: string)
    requires '-' !in ym
    ensures IntParts(ym) == (ParsePart(ym), Undefined)
  {
    assert FirstTwo(ym).0 == ym[..|ym|] == ym;
  }

  /** Swapping the two year-months negates the difference, for every pair of strings. */
  lemma DiffMonthsAntisymmetric(a: string, b: string)
    ensures DiffMonths(a, b) == Negate(DiffMonths(b, a))
  {
  }

  /** `Math.max(0, Math.floor(amount))`. */
  function SafeAmount(amount: real): (r: nat)
    ensures r == 0 <==> amount < 1.0
    ensures r as real <= amount < r as real + 1.0 || (r == 0 && amount < 1.0)
  {
    if amount.Floor > 0 then amount.Floor else 0
  }

  /**
   * `allocateToAccounts`: the whole-yen part of a deposit goes to the
   * tax-exempt account up to the room left under the lifetime cap, and the
   * rest to the taxable account.
   */
  function Allocate(amount: real, acc: Accounts): (r: Accounts)
    ensures amount < 1.0 ==> r == acc
    ensures r.balNisa + r.balTax == acc.balNisa + acc.balTax + SafeAmount(amount)
    ensures r.balNisa - acc.balNisa == r.nisaUsed - acc.nisaUsed >= 0
    ensures r.balTax >= acc.balTax
    ensures acc.nisaUsed <= NisaLimit ==> r.nisaUsed <= NisaLimit
    ensures r.nisaUsed - acc.nisaUsed == Min(SafeAmount(amount), Max(0, NisaLimit - acc.nisaUsed))
    ensures r.balTax > acc.balTax ==> r.nisaUsed >= NisaLimit
  {
    var safeAmount := SafeAmount(amount);
    if safeAmount <= 0 then acc
    else
      var nisaRoom := Max(0, NisaLimit - acc.nisaUsed);
      var investToNisa := Min(safeAmount, nisaRoom);
      var investToTax := safeAmount - investToNisa;
      Accounts(acc.balNisa + investToNisa, acc.balTax + investToTax, acc.nisaUsed + investToNisa)
  }

  function Max(a: int, b: int): (r: int) {
    if a >= b then a else b
  }

  function Min(a: int, b: int): (r: int) {
    if a <= b then a else b
  }

  /** `Math.floor(b * f)`. */
  function Scale(b: int, f: real): (r: int) {
    (b as real * f).Floor
  }

  /** Scaling a non-negative balance by a non-negative factor stays between 0 and `b`, or above `b`, as the factor does. */
  lemma FloorScaled(b: int, f: real)
    requires b >= 0 && f >= 0.0
    ensures 0 <= Scale(b, f)
    ensures f >= 1.0 ==> Scale(b, f) >= b
    ensures f <= 1.0 ==> Scale(b, f) <= b
  {
    var x := b as real;
    assert Scale(b, f) == (x * f).Floor;
    assert x * f >= 0.0;
    if f >= 1.0 {
      assert x * (f - 1.0) >= 0.0;
      assert x * f == x + x * (f - 1.0);
    } else {
      MulNonNegative(x, 1.0 - f);
      assert x * f == x - x * (1.0 - f);
    }
  }

  lemma MulNonNegative(x: real, y: real)
    requires x >= 0.0 && y >= 0.0
    ensures x * y >= 0.0
  {
  }

  /** The tax on a non-negative gain is a part of it. */
  lemma TaxWithinGain(gain: int)
    requires gain >= 0
    ensures 0 <= Scale(gain, TaxRate) <= gain
  {
    FloorScaled(gain, TaxRate);
  }

  /**
   * The month-end growth at `monthlyRate`: the tax-exempt balance is
   * scaled; for a non-negative rate the taxable balance gains its return
   * less the tax on it, for a negative one it is scaled. Both are floored.
   */
  function Grow(acc: Accounts, monthlyRate: real): (r: Accounts)
    ensures r.nisaUsed == acc.nisaUsed
    ensures monthlyRate == 0.0 ==> r == acc
  {
    var balNisa := Scale(acc.balNisa, 1.0 + monthlyRate);
    if monthlyRate >= 0.0 then
      var gain := Scale(acc.balTax, monthlyRate);
      var tax := Scale(gain, TaxRate);
      Accounts(balNisa, acc.balTax + gain - tax, acc.nisaUsed)
    else
      Accounts(balNisa, Scale(acc.balTax, 1.0 + monthlyRate), acc.nisaUsed)
  }

  /** Non-negative balances stay non-negative, grow with a non-negative rate and shrink with a negative one. */
  lemma GrowBounds(acc: Accounts, monthlyRate: real)
    requires acc.balNisa >= 0 && acc.balTax >= 0 && monthlyRate > -1.0
    ensures Grow(acc, monthlyRate).balNisa >= 0 && Grow(acc, monthlyRate).balTax >= 0
    ensures monthlyRate >= 0.0 ==> Grow(acc, monthlyRate).balNisa >= acc.balNisa && Grow(acc, monthlyRate).balTax >= acc.balTax
    ensures monthlyRate <= 0.0 ==> Grow(acc, monthlyRate).balNisa <= acc.balNisa && Grow(acc, monthlyRate).balTax <= acc.balTax
  {
    FloorScaled(acc.balNisa, 1.0 + monthlyRate);
    if monthlyRate >= 0.0 {
      var gain := Scale(acc.balTax, monthlyRate);
      FloorScaled(acc.balTax, monthlyRate);
      TaxWithinGain(gain);
      if monthlyRate == 0.0 {
        assert gain == 0;
      }
    } else {
      FloorScaled(acc.balTax, 1.0 + monthlyRate);
    }
  }

  /**
   * A withdrawal of `amount` yen: the taxable account pays first, the
   * tax-exempt account pays what is left, and whatever exceeds both
   * balances is not paid.
   */
  function Withdraw(amount: nat, acc: Accounts): (r: Accounts)
    ensures r.nisaUsed == acc.nisaUsed
    ensures amount == 0 ==> r == acc
    ensures r.balNisa < acc.balNisa ==> r.balTax == 0
    ensures acc.balNisa >= 0 && acc.balTax >= 0 ==>
              0 <= r.balNisa <= acc.balNisa && 0 <= r.balTax <= acc.balTax &&
              (acc.balNisa + acc.balTax) - (r.balNisa + r.balTax) == Min(amount, acc.balNisa + acc.balTax)
  {
    if amount > 0 then
      var fromTax := Min(acc.balTax, amount);
      var remaining := amount - fromTax;
      var balNisa := if remaining > 0 then acc.balNisa - Min(acc.balNisa, remaining) else acc.balNisa;
      Accounts(balNisa, acc.balTax - fromTax, acc.nisaUsed)
    else acc
  }

  /**
   * The month index from which withdrawals run: `max(0, diffMonths(...))`
   * when a withdrawal start is given (a non-empty string), Infinity otherwise.
   */
  function WithdrawStartDiff(s: Scenario): (r: JsNum)
    ensures r.Finite? ==> r.value >= 0.0
    ensures s.withdrawStartYm.None? || s.withdrawStartYm.value == [] ==> r == PosInf
  {
    if s.withdrawStartYm.Some? && s.withdrawStartYm.value != [] then
      Max0(DiffMonths(s.startYm, s.withdrawStartYm.value))
    else PosInf
  }

  /** The amount asked for in month `monthIndex`: the whole yen of `monthlyWithdraw ?? 0` once the start is reached. */
  function WithdrawAmount(s: Scenario, startDiff: JsNum, monthIndex: int): (r: nat)
    ensures r > 0 ==> startDiff.NegInf? || (startDiff.Finite? && monthIndex as real >= startDiff.value)
    ensures r > 0 ==> s.monthlyWithdraw.Some? && r as real <= s.monthlyWithdraw.value
    ensures startDiff.Finite? && monthIndex as real >= startDiff.value && s.monthlyWithdraw.Some? ==>
              r == SafeAmount(s.monthlyWithdraw.value)
  {
    if AtLeast(monthIndex, startDiff) then
      SafeAmount(if s.monthlyWithdraw.Some? then s.monthlyWithdraw.value else 0.0)
    else 0
  }

  /** Month `monthIndex` of the simulation: growth, then the monthly deposit, then the withdrawal. */
  function Month(s: Scenario, monthlyRate: real, startDiff: JsNum, acc: Accounts, monthIndex: int): (r: Accounts) {
    Withdraw(WithdrawAmount(s, startDiff, monthIndex), Allocate(s.monthlyInvest, Grow(acc, monthlyRate)))
  }

  /** `init` followed by `n` applications of `step`, the `i`-th with month index `i`. */
  function Iterate(step: (Accounts, int) -> Accounts, init: Accounts, n: nat): (r: Accounts) {
    if n == 0 then init else step(Iterate(step, init, n - 1), n - 1)
  }

  /** A property that holds at the start and that every step keeps holds after any number of steps. */
  lemma {:induction false} IterateKeeps(step: (Accounts, int) -> Accounts, init: Accounts, n: nat, p: Accounts -> bool)
    requires p(init)
    requires forall acc: Accounts, i: int :: p(acc) ==> p(step(acc, i))
    ensures p(Iterate(step, init, n))
  {
    if n > 0 {
      IterateKeeps(step, init, n - 1, p);
    }
  }

  /** A quantity that every step raises by `k` has risen by `n * k` after `n` steps. */
  lemma {:induction false} IterateCounts(step: (Accounts, int) -> Accounts, init: Accounts, n: nat, f: Accounts -> int, k: int)
    requires forall acc: Accounts, i: int :: f(step(acc, i)) == f(acc) + k
    ensures f(Iterate(step, init, n)) == f(init) + n * k
  {
    if n > 0 {
      IterateCounts(step, init, n - 1, f, k);
      assert (n - 1) * k + k == n * k;
    }
  }

  /** Two steps that agree everywhere give the same accounts after any number of steps. */
  lemma {:induction false} IterateSame(f: (Accounts, int) -> Accounts, g: (Accounts, int) -> Accounts, init: Accounts, n: nat)
    requires forall acc: Accounts, i: int :: f(acc, i) == g(acc, i)
    ensures Iterate(f, init, n) == Iterate(g, init, n)
  {
    if n > 0 {
      IterateSame(f, g, init, n - 1);
    }
  }

  /** One month of the simulation of `s` at `monthlyRate`, as a step. */
  function MonthStep(s: Scenario, monthlyRate: real): (Accounts, int) -> Accounts {
    (acc: Accounts, i: int) => Month(s, monthlyRate, WithdrawStartDiff(s), acc, i)
  }

  /** The accounts after the initial lump and the first `n` months. */
  function Balances(s: Scenario, monthlyRate: real, n: nat): (r: Accounts) {
    Iterate(MonthStep(s, monthlyRate), Allocate(s.initialLump, Accounts(0, 0, 0)), n)
  }

  /** The final total: both balances after all 480 months. */
  function FinalTotal(s: Scenario, monthlyRate: real): (r: int) {
    var acc := Balances(s, monthlyRate, MaxMonths);
    acc.balNisa + acc.balTax
  }

  /**
   * The total does not depend on the scenario's own rate list: the engine
   * is given the monthly rate to use.
   */
  lemma FinalTotalIgnoresRates(s: Scenario, rates: seq<real>, monthlyRate: real)
    ensures FinalTotal(s.(ratesPercent := rates), monthlyRate) == FinalTotal(s, monthlyRate)
  {
    var s' := s.(ratesPercent := rates);
    assert WithdrawStartDiff(s') == WithdrawStartDiff(s);
    IterateSame(MonthStep(s', monthlyRate), MonthStep(s, monthlyRate), Allocate(s.initialLump, Accounts(0, 0, 0)), MaxMonths);
  }

  /** The deposits to the tax-exempt account are within the cap and, above -100%, no balance is negative. */
  predicate Bounded(acc: Accounts, monthlyRate: real) {
    0 <= acc.nisaUsed <= NisaLimit && (monthlyRate > -1.0 ==> acc.balNisa >= 0 && acc.balTax >= 0)
  }

  /**
   * The tax-exempt deposits never exceed the cap; with a rate above -100%
   * no balance goes negative.
   */
  lemma BalancesBounded(s: Scenario, monthlyRate: real, n: nat)
    ensures Bounded(Balances(s, monthlyRate, n), monthlyRate)
  {
    var step := MonthStep(s, monthlyRate);
    forall acc: Accounts, i: int | Bounded(acc, monthlyRate)
      ensures Bounded(step(acc, i), monthlyRate)
    {
      MonthBounded(s, monthlyRate, WithdrawStartDiff(s), acc, i);
    }
    IterateKeeps(step, Allocate(s.initialLump, Accounts(0, 0, 0)), n, (acc: Accounts) => Bounded(acc, monthlyRate));
  }

  /** One month keeps the accounts bounded. */
  lemma MonthBounded(s: Scenario, monthlyRate: real, startDiff: JsNum, acc: Accounts, monthIndex: int)
    requires Bounded(acc, monthlyRate)
    ensures Bounded(Month(s, monthlyRate, startDiff, acc, monthIndex), monthlyRate)
  {
    if monthlyRate > -1.0 {
      GrowBounds(acc, monthlyRate);
    }
  }

  /**
   * At a zero rate and with no withdrawal start, nothing is earned and
   * nothing is drawn: the balances add up to the whole-yen lump plus one
   * whole-yen deposit per month.
   */
  lemma ZeroRateBalances(s: Scenario, n: nat)
    requires WithdrawStartDiff(s) == PosInf
    ensures Balances(s, 0.0, n).balNisa + Balances(s, 0.0, n).balTax == SafeAmount(s.initialLump) + n * SafeAmount(s.monthlyInvest)
  {
    var step := MonthStep(s, 0.0);
    var k := SafeAmount(s.monthlyInvest);
    forall acc: Accounts, i: int
      ensures step(acc, i).balNisa + step(acc, i).balTax == acc.balNisa + acc.balTax + k
    {
      ZeroRateMonth(s, acc, i);
    }
    IterateCounts(step, Allocate(s.initialLump, Accounts(0, 0, 0)), n, (acc: Accounts) => acc.balNisa + acc.balTax, k);
  }

  /** At a zero rate and before any withdrawal, a month adds the whole-yen deposit and nothing else. */
  lemma ZeroRateMonth(s: Scenario, acc: Accounts, monthIndex: int)
    ensures Month(s, 0.0, PosInf, acc, monthIndex).balNisa + Month(s, 0.0, PosInf, acc, monthIndex).balTax ==
            acc.balNisa + acc.balTax + SafeAmount(s.monthlyInvest)
  {
    assert Grow(acc, 0.0) == acc;
    assert WithdrawAmount(s, PosInf, monthIndex) == 0;
  }

  /** The accounts after month `n` are month `n` applied to those before it. */
  lemma BalancesNext(s: Scenario, monthlyRate: real, n: nat)
    ensures Balances(s, monthlyRate, n + 1) == Month(s, monthlyRate, WithdrawStartDiff(s), Balances(s, monthlyRate, n), n)
  {
  }

  /** Withdrawals never happen without a withdrawal start, whatever the rate. */
  lemma NoWithdrawalWithoutStart(s: Scenario, monthlyRate: real, acc: Accounts, monthIndex: int)
    requires s.withdrawStartYm.None? || s.withdrawStartYm.value == []
    ensures Month(s, monthlyRate, WithdrawStartDiff(s), acc, monthIndex) == Allocate(s.monthlyInvest, Grow(acc, monthlyRate))
  {
  }

  /**
   * Month `i` asks for a withdrawal exactly when a withdrawal start is
   * given, `i` is at least `max(0, diffMonths(startYm, withdrawStartYm))`
   * and `monthlyWithdraw` has at least one whole yen.
   */
  lemma WithdrawalMonths(s: Scenario, monthIndex: nat)
    ensures WithdrawAmount(s, WithdrawStartDiff(s), monthIndex) > 0 <==>
              s.withdrawStartYm.Some? && s.withdrawStartYm.value != [] &&
              AtLeast(monthIndex, Max0(DiffMonths(s.startYm, s.withdrawStartYm.value))) &&
              s.monthlyWithdraw.Some? && s.monthlyWithdraw.value >= 1.0
  {
  }

  /**
   * `calcFinalTotal`: allocates the lump, then for 480 months grows both
   * accounts, deposits `monthlyInvest` and, from the withdrawal start on,
   * draws `monthlyWithdraw`; the result is the sum of the two balances.
   */
  method CalcFinalTotal(scenario: Scenario, monthlyRate: real) returns (total: int)
    ensures total == FinalTotal(scenario, monthlyRate)
    ensures monthlyRate > -1.0 ==> total >= 0
  {
    var acc := Allocate(scenario.initialLump, Accounts(0, 0, 0));
    var balNisa, balTax, nisaUsed := acc.balNisa, acc.balTax, acc.nisaUsed;
    var withdrawStartDiff := WithdrawStartDiff(scenario);
    var monthIndex := 0;
    while monthIndex < MaxMonths
      invariant 0 <= monthIndex <= MaxMonths
      invariant Accounts(balNisa, balTax, nisaUsed) == Balances(scenario, monthlyRate, monthIndex)
    {
      ghost var before := Accounts(balNisa, balTax, nisaUsed);
      // growth at month end
      balNisa := Scale(balNisa, 1.0 + monthlyRate);
      if monthlyRate >= 0.0 {
        var gain := Scale(balTax, monthlyRate);
        var tax := Scale(gain, TaxRate);
        balTax := balTax + gain - tax;
      } else {
        balTax := Scale(balTax, 1.0 + monthlyRate);
      }
      assert Accounts(balNisa, balTax, nisaUsed) == Grow(before, monthlyRate);
      // month-end deposit
      acc := Allocate(scenario.monthlyInvest, Accounts(balNisa, balTax, nisaUsed));
      balNisa, balTax, nisaUsed := acc.balNisa, acc.balTax, acc.nisaUsed;
      // withdrawal
      var withdrawAmount := WithdrawAmount(scenario, withdrawStartDiff, monthIndex);
      if withdrawAmount > 0 {
        var withdrawFromTax := Min(balTax, withdrawAmount);
        balTax := balTax - withdrawFromTax;
        var remaining := withdrawAmount - withdrawFromTax;
        if remaining > 0 {
          var withdrawFromNisa := Min(balNisa, remaining);
          balNisa := balNisa - withdrawFromNisa;
        }
      }
      assert Accounts(balNisa, balTax, nisaUsed) == Withdraw(withdrawAmount, acc);
      BalancesNext(scenario, monthlyRate, monthIndex);
      monthIndex := monthIndex + 1;
    }
    total := balNisa + balTax;
    BalancesBounded(scenario, monthlyRate, MaxMonths);
  }
}
