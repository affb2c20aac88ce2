/**
 * The calculator screen's logic: reading the comma-separated rate list,
 * validating a scenario against it, and computing one final total per
 * rate. The React state and the rendering around them are not modelled.
 */
module App {
  import opened Wrappers
  import opened JsStrings
  import opened JsNumbers
  import opened Format
  import opened CalcEngine

  /** The accepted annual rates, in percent, bounds included. */
  const RateMin: int := 0
  const RateMax: int := 50

  /** `.map((item) => Number(item))`. */
  function Numbers(items: seq<string>): (r: seq<JsNum>)
    ensures |r| == |items| && forall k :: 0 <= k < |items| ==> r[k] == Number(items[k])
  {
    seq(|items|, k requires 0 <= k < |items| => Number(items[k]))
  }

  /**
   * `parseRatesInput`: the comma-separated items, trimmed, the empty ones
   * dropped, read with `Number`, the unreadable ones dropped; order kept.
   */
  function ParseRatesInput(input: string): (r: seq<JsNum>)
    ensures |r| <= |Split(input, {','})|
    ensures forall k :: 0 <= k < |r| ==> !r[k].NaN?
  {
    DropNaN(Numbers(TrimmedNonEmpty(Split(input, {','}))))
  }

  /** Integer rates written out and joined with commas read back as the same rates, in order. */
  lemma ParseRatesJoined(rates: seq<int>)
    requires rates != []
    ensures ParseRatesInput(Join(RateTexts(rates), [','])) == seq(|rates|, k requires 0 <= k < |rates| => Finite(rates[k] as real))
  {
    var texts := RateTexts(rates);
    RateTextsClean(rates);
    SplitJoin(texts, ',', {','});
    TrimmedNonEmptyKeeps(texts);
    NumbersOfRateTexts(rates);
    DropNaNOfNumbers(Numbers(texts));
  }

  /** The written-out rates hold no comma, are non-empty and carry no surrounding space. */
  lemma RateTextsClean(rates: seq<int>)
    ensures forall k :: 0 <= k < |rates| ==>
              NoneOf(RateTexts(rates)[k], {','}) && RateTexts(rates)[k] != [] && IsTrimmed(RateTexts(rates)[k])
  {
    forall k | 0 <= k < |rates|
      ensures NoneOf(IntToString(rates[k]), {','}) && IntToString(rates[k]) != [] && IsTrimmed(IntToString(rates[k]))
    {
      IntToStringClean(rates[k]);
    }
  }

  lemma IntToStringClean(i: int)
    ensures NoneOf(IntToString(i), {','}) && IntToString(i) != [] && IsTrimmed(IntToString(i))
  {
    assert i < 0 ==> IntToString(i)[1..] == NatToString(-i);
  }

  /** Each written-out rate reads back with `Number` as that rate. */
  lemma NumbersOfRateTexts(rates: seq<int>)
    ensures Numbers(RateTexts(rates)) == seq(|rates|, k requires 0 <= k < |rates| => Finite(rates[k] as real))
    ensures forall k :: 0 <= k < |rates| ==> !Numbers(RateTexts(rates))[k].NaN?
  {
    forall k | 0 <= k < |rates|
      ensures Number(IntToString(rates[k])) == Finite(rates[k] as real)
    {
      NumberOfIntToString(rates[k]);
    }
  }

  /** Why a scenario is refused. */
  datatype ValidationError = AmountNegative | WithdrawNegative | NoRates | RateOutOfRange

  /** The message the screen shows for each refusal. */
  function ErrorMessage(e: ValidationError): (r: string) {
    match e
    case AmountNegative => "初期元本・毎月積立額は0以上で入力してください。"
    case WithdrawNegative => "毎月の取り崩し額は0以上で入力してください。"
    case NoRates => "年率リストを入力してください。"
    case RateOutOfRange => "年率は" + NatToString(RateMin) + "〜" + NatToString(RateMax) + "%の範囲で入力してください。"
  }

  /** `rate < RATE_MIN || rate > RATE_MAX`; NaN compares false both ways and so passes. */
  predicate OutOfRange(rate: JsNum) {
    Less(rate, RateMin) || Below(RateMax, rate)
  }

  /** The first rate of the list that is out of range, by position. */
  function FirstOutOfRange(rates: seq<JsNum>): (r: Option<nat>)
    ensures r.None? <==> forall k :: 0 <= k < |rates| ==> !OutOfRange(rates[k])
    ensures r.Some? ==> r.value < |rates| && OutOfRange(rates[r.value]) &&
                        forall k :: 0 <= k < r.value ==> !OutOfRange(rates[k])
  {
    if rates == [] then None
    else if OutOfRange(rates[0]) then Some(0)
    else match FirstOutOfRange(rates[1..])
      case None => None
      case Some(k) => Some(k + 1)
  }

  /**
   * `validateScenario`: None (`null`) when the scenario can be computed;
   * otherwise the first failing check, in this order: a negative lump or
   * monthly deposit, a negative withdrawal, an empty rate list, a rate
   * outside `[RATE_MIN, RATE_MAX]`.
   */
  function ValidateScenario(s: Scenario, rates: seq<JsNum>): (r: Option<ValidationError>)
    ensures r.None? <==>
              s.initialLump >= 0.0 && s.monthlyInvest >= 0.0 &&
              (s.monthlyWithdraw.None? || s.monthlyWithdraw.value >= 0.0) &&
              rates != [] && forall k :: 0 <= k < |rates| ==> !OutOfRange(rates[k])
    ensures r == Some(AmountNegative) <==> s.initialLump < 0.0 || s.monthlyInvest < 0.0
    ensures r == Some(WithdrawNegative) <==>
              s.initialLump >= 0.0 && s.monthlyInvest >= 0.0 &&
              s.monthlyWithdraw.Some? && s.monthlyWithdraw.value < 0.0
    ensures r == Some(NoRates) <==>
              s.initialLump >= 0.0 && s.monthlyInvest >= 0.0 &&
              (s.monthlyWithdraw.None? || s.monthlyWithdraw.value >= 0.0) && rates == []
    ensures r == Some(RateOutOfRange) <==>
              s.initialLump >= 0.0 && s.monthlyInvest >= 0.0 &&
              (s.monthlyWithdraw.None? || s.monthlyWithdraw.value >= 0.0) &&
              rates != [] && exists k :: 0 <= k < |rates| && OutOfRange(rates[k])
  {
    if s.initialLump < 0.0 || s.monthlyInvest < 0.0 then Some(AmountNegative)
    else if s.monthlyWithdraw.Some? && s.monthlyWithdraw.value < 0.0 then Some(WithdrawNegative)
    else if |rates| == 0 then Some(NoRates)
    else if FirstOutOfRange(rates).Some? then Some(RateOutOfRange)
    else None
  }

  /** Both bounds are accepted, and a rate just outside either is refused. */
  lemma RateBoundsInclusive()
    ensures !OutOfRange(Finite(RateMin as real)) && !OutOfRange(Finite(RateMax as real))
    ensures OutOfRange(Finite(RateMin as real - 0.01)) && OutOfRange(Finite(RateMax as real + 0.01))
  {
  }

  /** The rates of an input that passes validation are finite percentages from 0 to 50. */
  lemma ValidatedRates(s: Scenario, input: string)
    requires ValidateScenario(s, ParseRatesInput(input)).None?
    ensures ParseRatesInput(input) != []
    ensures forall k :: 0 <= k < |ParseRatesInput(input)| ==>
              ParseRatesInput(input)[k].Finite? && 0.0 <= ParseRatesInput(input)[k].value <= 50.0
  {
  }

  /** One row of the results: the rate as entered and the final total it gives. */
  datatype RateResult = RateResult(ratePercent: real, finalTotal: int)

  /**
   * `runCalculation`: one result per rate, in the order given, computing
   * with the annual rate `ratePercent / 100`. `monthlyRateOf` stands for
   * the engine's `(1 + annualRate)^(1/12) - 1`.
   */
  function RunCalculation(s: Scenario, rates: seq<real>, monthlyRateOf: real -> real): (r: seq<RateResult>)
    ensures |r| == |rates|
    ensures forall k :: 0 <= k < |rates| ==>
              r[k].ratePercent == rates[k] && r[k].finalTotal == FinalTotal(s, monthlyRateOf(rates[k] / 100.0))
  {
    seq(|rates|, k requires 0 <= k < |rates| => RateResult(rates[k], FinalTotal(s, monthlyRateOf(rates[k] / 100.0))))
  }

  /** With a monthly rate above -100% for every non-negative annual rate, every total is non-negative. */
  lemma RunCalculationNonNegative(s: Scenario, rates: seq<real>, monthlyRateOf: real -> real)
    requires forall k :: 0 <= k < |rates| ==> rates[k] >= 0.0 && monthlyRateOf(rates[k] / 100.0) > -1.0
    ensures forall k :: 0 <= k < |rates| ==> RunCalculation(s, rates, monthlyRateOf)[k].finalTotal >= 0
  {
    forall k | 0 <= k < |rates|
      ensures FinalTotal(s, monthlyRateOf(rates[k] / 100.0)) >= 0
    {
      BalancesBounded(s, monthlyRateOf(rates[k] / 100.0), MaxMonths);
    }
  }

  /** Computing with a scenario whose rate list was replaced gives the rows of the original scenario. */
  lemma RunCalculationIgnoresRates(s: Scenario, rates: seq<real>, monthlyRateOf: real -> real)
    ensures RunCalculation(s.(ratesPercent := rates), rates, monthlyRateOf) == RunCalculation(s, rates, monthlyRateOf)
  {
    var a, b := RunCalculation(s.(ratesPercent := rates), rates, monthlyRateOf), RunCalculation(s, rates, monthlyRateOf);
    forall k | 0 <= k < |rates|
      ensures a[k] == b[k]
    {
      FinalTotalIgnoresRates(s, rates, monthlyRateOf(rates[k] / 100.0));
    }
  }

  /** The values of a list of finite numbers. */
  function Values(xs: seq<JsNum>): (r: seq<real>)
    requires forall k :: 0 <= k < |xs| ==> xs[k].Finite?
    ensures |r| == |xs| && forall k :: 0 <= k < |xs| ==> xs[k] == Finite(r[k])
  {
    seq(|xs|, k requires 0 <= k < |xs| => xs[k].value)
  }

  /**
   * The calculate button: parse the rate list, validate the scenario
   * against it, and on success compute one total per rate for the scenario
   * with the parsed list as its rates. (Validation does not read the
   * scenario's own rate list.)
   */
  function HandleCalculate(s: Scenario, ratesInput: string, monthlyRateOf: real -> real): (r: Result<seq<RateResult>, ValidationError>)
    ensures r.Err? <==> ValidateScenario(s, ParseRatesInput(ratesInput)).Some?
    ensures r.Err? ==> r.error == ValidateScenario(s, ParseRatesInput(ratesInput)).value
    ensures r.Ok? ==> |r.value| == |ParseRatesInput(ratesInput)| > 0 &&
                      forall k :: 0 <= k < |r.value| ==>
                        Finite(r.value[k].ratePercent) == ParseRatesInput(ratesInput)[k] &&
                        0.0 <= r.value[k].ratePercent <= 50.0
  {
    var parsed := ParseRatesInput(ratesInput);
    match ValidateScenario(s, parsed)
    case Some(e) => Err(e)
    case None =>
      ValidatedRates(s, ratesInput);
      var rates := Values(parsed);
      Ok(RunCalculation(s.(ratesPercent := rates), rates, monthlyRateOf))
  }

  /**
   * When validation passes, the calculation succeeds, and its rows are
   * `runCalculation` of the scenario itself over the parsed rates: one
   * row per rate, in order, each with the scenario's final total at that
   * rate.
   */
  lemma HandleCalculateRows(s: Scenario, ratesInput: string, monthlyRateOf: real -> real)
    requires ValidateScenario(s, ParseRatesInput(ratesInput)).None?
    ensures forall k :: 0 <= k < |ParseRatesInput(ratesInput)| ==> ParseRatesInput(ratesInput)[k].Finite?
    ensures HandleCalculate(s, ratesInput, monthlyRateOf) == Ok(RunCalculation(s, Values(ParseRatesInput(ratesInput)), monthlyRateOf))
  {
    ValidatedRates(s, ratesInput);
    RunCalculationIgnoresRates(s, Values(ParseRatesInput(ratesInput)), monthlyRateOf);
  }
}
