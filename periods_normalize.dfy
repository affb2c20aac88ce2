/**
 * `normalizePeriods`: turns a scenario's inputs (the simple-mode amounts, or
 * the blocks of the builder and the DSL) into the coalesced period list of
 * exactly the scenario's duration that the calculation consumes.
 */
module PeriodsNormalize {
  import opened Wrappers
  import opened JsNumbers
  import opened Periods
  import opened PeriodsSchedule
  import opened PeriodsBlocks
  import opened PeriodsStreams

  /** How the schedule was entered. */
  datatype Mode = Simple | Builder | Dsl

  /** `{ durationYears, blocks?, simpleArgs? }`. */
  datatype Options = Options(durationYears: real, blocks: Option<seq<PeriodBlock>>, simpleArgs: Option<SimpleArgs>)

  /** `{ periods, durationMonths }`. */
  datatype Schedule = Schedule(periods: seq<Period>, durationMonths: nat)

  /** `max(0, trunc(years * 12))`: whole months, none for a duration that is not positive. */
  function DurationMonthsOf(years: real): (r: nat)
    ensures years <= 0.0 ==> r == 0
    ensures years >= 0.0 ==> r as real <= years * 12.0 < r as real + 1.0
  {
    var m := Trunc(years * 12.0);
    if m > 0 then m else 0
  }

  /** The blocks the builder or the DSL hands over can be replayed. */
  predicate BlocksUsable(mode: Mode, options: Options) {
    mode != Simple && options.blocks.Some? ==> AllReplayable(options.blocks.value)
  }

  /**
   * The periods before the duration is applied: the simple-mode runs when
   * the mode is simple and its amounts are given, the flattened blocks when
   * the mode is the builder or the DSL and blocks are given, none otherwise.
   */
  function SourcePeriods(mode: Mode, options: Options, d: nat): (r: seq<Period>)
    requires BlocksUsable(mode, options)
  {
    if mode == Simple then
      (if options.simpleArgs.Some? then Runs(SimpleFlows(options.simpleArgs.value, d)) else [])
    else if options.blocks.Some? then Flatten(options.blocks.value)
    else []
  }

  /** The source periods are a month or more each. */
  lemma SourcePositive(mode: Mode, options: Options, d: nat)
    requires BlocksUsable(mode, options)
    ensures Positive(SourcePeriods(mode, options, d))
  {
    if mode == Simple && options.simpleArgs.Some? {
      RunsMeaning(SimpleFlows(options.simpleArgs.value, d));
    } else if mode != Simple && options.blocks.Some? {
      var bs := options.blocks.value;
      FlattenFirstTotal(bs, |bs|);
    }
  }

  /**
   * The schedule of a scenario: its duration in whole months, and its source
   * periods fitted to exactly that many months; no periods for a duration
   * of zero months.
   */
  method NormalizePeriods(mode: Mode, options: Options) returns (r: Schedule)
    requires BlocksUsable(mode, options)
    ensures r.durationMonths == DurationMonthsOf(options.durationYears)
    ensures r.periods == DurationApplied(SourcePeriods(mode, options, r.durationMonths), r.durationMonths)
    ensures Positive(r.periods) && Coalesced(r.periods) && TotalMonths(r.periods) == r.durationMonths
    ensures r.periods == [] <==> r.durationMonths == 0
    ensures Expand(r.periods) == MonthlyFlows(SourcePeriods(mode, options, r.durationMonths), r.durationMonths)
  {
    var m := Trunc(options.durationYears * 12.0);
    var durationMonths: nat := if m > 0 then m else 0;
    var periods: seq<Period> := [];
    if durationMonths == 0 {
      SourcePositive(mode, options, 0);
      DurationAppliedMeaning(SourcePeriods(mode, options, 0), 0);
      return Schedule([], 0);
    }
    if mode == Simple && options.simpleArgs.Some? {
      periods := GenerateSimplePeriods(options.simpleArgs.value, durationMonths);
    } else if mode == Builder && options.blocks.Some? {
      periods := FlattenBlocks(options.blocks.value);
    } else if mode == Dsl && options.blocks.Some? {
      periods := FlattenBlocks(options.blocks.value);
    }
    SourcePositive(mode, options, durationMonths);
    assert periods == SourcePeriods(mode, options, durationMonths);
    periods := ApplyDuration(periods, durationMonths);
    r := Schedule(periods, durationMonths);
  }

  /**
   * In simple mode the runs already fill the duration, so applying it
   * changes nothing: month `j` of the schedule is the contribution less the
   * withdrawal once it has started.
   */
  lemma SimpleNormalized(args: SimpleArgs, d: nat)
    ensures DurationApplied(Runs(SimpleFlows(args, d)), d) == Runs(SimpleFlows(args, d))
    ensures Expand(DurationApplied(Runs(SimpleFlows(args, d)), d)) == SimpleFlows(args, d)
  {
    var s := SimpleFlows(args, d);
    RunsMeaning(s);
    assert s[..d] == s;
    DurationAppliedCanonical(Runs(s), d, Runs(s));
  }

  /**
   * A mode with nothing to draw from (simple mode without its amounts, or
   * the builder or the DSL without blocks) gives one zero-flow period over
   * the whole duration.
   */
  lemma NoSourceNormalized(d: nat)
    requires d > 0
    ensures DurationApplied([], d) == [Period(d, 0)]
  {
    var r := [Period(d, 0)];
    ExpandSingle(Period(d, 0));
    assert Fit([], d, 0) == Repeat(0, d);
    DurationAppliedCanonical([], d, r);
  }

  /** One block flattens to its own periods. */
  lemma FlattenSingle(b: PeriodBlock)
    requires Replayable(b)
    ensures AllReplayable([b]) && Flatten([b]) == BlockPeriods(b)
  {
    assert FlattenFirst([b], 1) == [] + BlockPeriods(b);
  }

  /**
   * A single block that lasts at least the duration gives, in month `i`,
   * month `i` of its pattern replayed cyclically.
   */
  lemma SingleBlockNormalized(b: PeriodBlock, d: nat, i: nat)
    requires Replayable(b) && i < d <= BlockMonths(b)
    ensures AllReplayable([b]) && |Expand(DurationApplied(Flatten([b]), d))| == d
    ensures |Expand(b.pattern)| == TotalMonths(b.pattern) > 0
    ensures Expand(DurationApplied(Flatten([b]), d))[i] == Expand(b.pattern)[i % TotalMonths(b.pattern)]
  {
    var ps := BlockPeriods(b);
    FlattenSingle(b);
    BlockCycle(b, i);
    DurationAppliedMeaning(ps, d);
    ExpandLength(ps);
    var e := Expand(ps);
    assert MonthlyFlows(ps, d)[i] == e[i];
  }
}
