/**
 * The "simple" schedule: a contribution stream and a withdrawal stream are
 * summed month by month and the sums cut into runs of equal flow.
 */
module PeriodsStreams {
  import opened Wrappers
  import opened JsNumbers
  import opened Periods
  import opened PeriodsSchedule
  import Format

  // ---------------------------------------------------------------------
  // mergeStreams
  // ---------------------------------------------------------------------

  /** `acc` plus, month by month, the flows of `ps` over `|acc|` months (nothing past their end). */
  function AddStream(acc: seq<int>, ps: seq<Period>): (r: seq<int>)
    ensures |r| == |acc|
    ensures forall j :: 0 <= j < |acc| ==> r[j] == acc[j] + (if j < |Expand(ps)| then Expand(ps)[j] else 0)
  {
    var f := Fit(Expand(ps), |acc|, 0);
    seq(|acc|, j requires 0 <= j < |acc| => acc[j] + f[j])
  }

  /** The month-by-month sum of the first `n` streams over `d` months. */
  function SummedFirst(streams: seq<seq<Period>>, n: nat, d: nat): (r: seq<int>)
    requires n <= |streams|
    ensures |r| == d
  {
    if n == 0 then Repeat(0, d) else AddStream(SummedFirst(streams, n - 1, d), streams[n - 1])
  }

  /** The month-by-month sum of all streams over `d` months. */
  function Summed(streams: seq<seq<Period>>, d: nat): (r: seq<int>)
    ensures |r| == d
  {
    SummedFirst(streams, |streams|, d)
  }

  /** One one-month period per entry of `s`. */
  function Singles(s: seq<int>): (r: seq<Period>)
    ensures |r| == |s| && Positive(r)
  {
    seq(|s|, j requires 0 <= j < |s| => Period(1, s[j]))
  }

  /** The runs of equal flows in `s`: its one-month periods, merged. */
  function Runs(s: seq<int>): (r: seq<Period>) {
    Merged(Singles(s))
  }

  lemma {:induction false} SinglesExpand(s: seq<int>, n: nat)
    requires n <= |s|
    ensures ExpandFirst(Singles(s), n) == s[..n]
  {
    if n > 0 {
      SinglesExpand(s, n - 1);
      assert s[..n - 1] + [s[n - 1]] == s[..n];
    }
  }

  /** The runs of `s` are positive, coalesced, expand to `s` and cover its length. */
  lemma RunsMeaning(s: seq<int>)
    ensures Positive(Runs(s)) && Coalesced(Runs(s))
    ensures Expand(Runs(s)) == s && TotalMonths(Runs(s)) == |s|
    ensures Runs(s) == [] <==> s == []
  {
    SinglesExpand(s, |s|);
    assert s[..|s|] == s;
    MergedMeaning(Singles(s));
    ExpandLength(Runs(s));
  }

  /** The runs of `s` are the only positive, coalesced periods that expand to `s`. */
  lemma RunsCanonical(s: seq<int>, r: seq<Period>)
    requires Positive(r) && Coalesced(r) && Expand(r) == s
    ensures r == Runs(s)
  {
    RunsMeaning(s);
    CoalescedUnique(r, Runs(s));
  }

  /** Adds the flows of one stream to `flows`, month by month, stopping at the end of the array. */
  method FillStream(flows: array<int>, periods: seq<Period>)
    modifies flows
    ensures flows[..] == AddStream(old(flows[..]), periods)
  {
    ghost var base := flows[..];
    ghost var whole := Expand(periods);
    var d := flows.Length;
    var index := 0;
    for p := 0 to |periods|
      invariant index == Min(d, |ExpandFirst(periods, p)|) && index <= |whole|
      invariant forall j :: 0 <= j < index ==> flows[j] == base[j] + whole[j]
      invariant forall j :: index <= j < d ==> flows[j] == base[j]
    {
      var period := periods[p];
      ghost var start := |ExpandFirst(periods, p)|;
      ExpandFirstPrefix(periods, p + 1, |periods|);
      ghost var before := index;
      index := AddRun(flows, index, period.months, period.flow);
      forall j | before <= j < index
        ensures flows[j] == base[j] + whole[j]
      {
        ExpandAt(periods, p, j - start);
      }
    }
    assert forall j :: 0 <= j < d ==> flows[j] == AddStream(base, periods)[j];
  }

  /**
   * Adds `flow` to at most `months` cells of `a` from `index` on, stopping
   * at the end of the array; returns the index after the last cell changed.
   */
  method AddRun(a: array<int>, index: nat, months: int, flow: int) returns (next: nat)
    requires index <= a.Length
    modifies a
    ensures next == Min(a.Length, index + (if months > 0 then months else 0))
    ensures forall j :: 0 <= j < a.Length ==> a[j] == if index <= j < next then old(a[j]) + flow else old(a[j])
  {
    next := index;
    var i := 0;
    while i < months && next < a.Length
      invariant 0 <= i <= (if months > 0 then months else 0)
      invariant next == Min(a.Length, index + i)
      invariant forall j :: 0 <= j < a.Length ==> a[j] == if index <= j < next then old(a[j]) + flow else old(a[j])
    {
      a[next] := a[next] + flow;
      i := i + 1;
      next := next + 1;
    }
  }

  /** Extending the open run by one more equal month. */
  lemma RunExtend(e: seq<int>, c: int, len: nat, s: seq<int>, i: nat)
    requires i < |s| && s[i] == c && e + Repeat(c, len) == s[..i]
    ensures e + Repeat(c, len + 1) == s[..i + 1]
  {
    RepeatConcat(c, len, 1);
    assert s[..i + 1] == s[..i] + [c];
    assert e + Repeat(c, len + 1) == e + Repeat(c, len) + [c];
  }

  /** Closing the open run and opening a new one at a month of a different flow. */
  lemma RunClose(result: seq<Period>, c: int, len: nat, s: seq<int>, i: nat)
    requires i < |s| && Expand(result) + Repeat(c, len) == s[..i]
    ensures Expand(result + [Period(len, c)]) + Repeat(s[i], 1) == s[..i + 1]
  {
    ExpandSnoc(result, Period(len, c));
    assert s[..i + 1] == s[..i] + [s[i]];
  }

  /** Appending a run of a month or more whose flow differs from the last run's. */
  lemma SnocRun(result: seq<Period>, p: Period)
    requires Positive(result) && Coalesced(result) && p.months > 0
    requires result != [] ==> result[|result| - 1].flow != p.flow
    ensures Positive(result + [p]) && Coalesced(result + [p])
  {
  }

  /**
   * Cuts the monthly flows into runs: a run grows while the flow stays the
   * same and is closed when it changes; the open run is closed at the end.
   */
  method CutRuns(flows: array<int>) returns (r: seq<Period>)
    ensures Positive(r) && Coalesced(r) && Expand(r) == flows[..]
  {
    ghost var s := flows[..];
    var result: seq<Period> := [];
    var currentFlow := if flows.Length > 0 then flows[0] else 0;
    var length: nat := 0;
    for i := 0 to flows.Length
      invariant length == 0 <==> i == 0
      invariant i == 0 ==> result == []
      invariant Positive(result) && Coalesced(result)
      invariant result != [] ==> result[|result| - 1].flow != currentFlow
      invariant Expand(result) + Repeat(currentFlow, length) == s[..i]
    {
      var flow := flows[i];
      if length == 0 {
        assert s[..1] == [flow];
        currentFlow := flow;
        length := 1;
      } else if flow == currentFlow {
        RunExtend(Expand(result), currentFlow, length, s, i);
        length := length + 1;
      } else {
        RunClose(result, currentFlow, length, s, i);
        SnocRun(result, Period(length, currentFlow));
        result := result + [Period(length, currentFlow)];
        currentFlow := flow;
        length := 1;
      }
    }
    if length > 0 {
      ExpandSnoc(result, Period(length, currentFlow));
      SnocRun(result, Period(length, currentFlow));
      result := result + [Period(length, currentFlow)];
    }
    assert s[..flows.Length] == s;
    r := result;
  }

  /**
   * Sums the streams month by month over `durationMonths` months (each
   * stream stops at the end) and cuts the sums into runs of equal flow.
   */
  method MergeStreams(streams: seq<seq<Period>>, durationMonths: nat) returns (r: seq<Period>)
    ensures r == Runs(Summed(streams, durationMonths))
    ensures Positive(r) && Coalesced(r) && TotalMonths(r) == durationMonths
    ensures Expand(r) == Summed(streams, durationMonths)
  {
    var d := durationMonths;
    var flows := new int[d](_ => 0);
    assert flows[..] == Repeat(0, d);
    for n := 0 to |streams|
      invariant flows[..] == SummedFirst(streams, n, d)
    {
      FillStream(flows, streams[n]);
    }
    r := CutRuns(flows);
    RunsCanonical(flows[..], r);
    RunsMeaning(flows[..]);
  }

  // ---------------------------------------------------------------------
  // generateSimplePeriods
  // ---------------------------------------------------------------------

  /**
   * `diffMonthsSafe`: the same month difference as `diffMonths` in the
   * formatting helpers. Malformed text gives NaN rather than an exception,
   * so the fallback to 0 is never taken.
   */
  function DiffMonthsSafe(startYm: string, endYm: string): (r: JsNum)
    ensures r == Format.DiffMonths(startYm, endYm)
    ensures '-' !in startYm || '-' !in endYm ==> r.NaN?
  {
    Format.PartsDiff(YearMonth(startYm), YearMonth(endYm))
  }

  /** How often `for (let i = 0; i < m; i++)` runs: `m` rounded up. */
  function LoopCount(m: real): (r: nat)
    requires m >= 0.0
    ensures m <= r as real < m + 1.0
  {
    if m.Floor as real == m then m.Floor else m.Floor + 1
  }

  /** The simple-mode inputs besides the duration. */
  datatype SimpleArgs = SimpleArgs(monthlyInvest: int, monthlyWithdraw: int, withdrawStartYm: Option<string>, startYm: string)

  /**
   * The month from which withdrawals are made within `d` months, given the
   * offset `max(0, diff)`: none when it is NaN or not below `d`; a
   * fractional offset is rounded up, as the fill loop rounds it.
   */
  function WithdrawStart(offset: JsNum, d: nat): (r: Option<nat>)
    ensures r.Some? ==> r.value <= d
  {
    if offset.Finite? && 0.0 <= offset.value < d as real then Some(LoopCount(offset.value)) else None
  }

  /** A withdrawal is asked for: a positive amount and a non-empty start month. */
  predicate Withdraws(args: SimpleArgs) {
    args.monthlyWithdraw > 0 && args.withdrawStartYm.Some? && args.withdrawStartYm.value != ""
  }

  /** The offset of the withdrawal start from the start month, `max(0, diff)`. */
  function WithdrawOffset(args: SimpleArgs): (r: JsNum)
    requires Withdraws(args)
  {
    Max0(DiffMonthsSafe(args.startYm, args.withdrawStartYm.value))
  }

  /** The month index from which withdrawals are made within `d` months, if any. */
  function WithdrawFrom(args: SimpleArgs, d: nat): (r: Option<nat>)
    ensures r.Some? ==> r.value <= d
  {
    if Withdraws(args) then WithdrawStart(WithdrawOffset(args), d) else None
  }

  /** The simple-mode flow of month `j`: the contribution when positive, less the withdrawal once it has started. */
  function SimpleFlow(args: SimpleArgs, d: nat, j: int): (r: int) {
    (if args.monthlyInvest > 0 then args.monthlyInvest else 0)
    + (if WithdrawFrom(args, d).Some? && WithdrawFrom(args, d).value <= j then -args.monthlyWithdraw else 0)
  }

  /** The simple-mode flows of the `d` months. */
  function SimpleFlows(args: SimpleArgs, d: nat): (r: seq<int>)
    ensures |r| == d
  {
    seq(d, j => SimpleFlow(args, d, j))
  }

  /** The contribution stream: one period over the whole duration when the contribution is positive. */
  function InvestStream(args: SimpleArgs, d: nat): (r: seq<Period>) {
    if args.monthlyInvest > 0 then [Period(d, args.monthlyInvest)] else []
  }

  /** The withdrawal periods from month `start`: a zero-flow wait when `start > 0`, then `w` withdrawn per month. */
  function WithdrawPeriods(start: nat, d: nat, w: int): (r: seq<Period>)
    requires start <= d
  {
    (if start > 0 then [Period(start, 0)] else []) + [Period(d - start, -w)]
  }

  /** A zero-flow wait is pushed exactly when the offset is positive, that is when its rounding up is. */
  lemma WaitWhenLater(offset: real, d: nat, w: int)
    requires 0.0 <= offset < d as real
    ensures LoopCount(offset) <= d
    ensures (if offset > 0.0 then [] + [Period(LoopCount(offset), 0)] else []) + [Period(d - LoopCount(offset), -w)]
         == WithdrawPeriods(LoopCount(offset), d, w)
  {
  }

  /** The withdrawal periods for an offset: none unless the offset gives a start month. */
  function OffsetStream(offset: JsNum, d: nat, w: int): (r: seq<Period>) {
    match WithdrawStart(offset, d)
    case None => []
    case Some(start) => WithdrawPeriods(start, d, w)
  }

  /** The withdrawal stream. */
  function WithdrawStream(args: SimpleArgs, d: nat): (r: seq<Period>) {
    if Withdraws(args) then OffsetStream(WithdrawOffset(args), d, args.monthlyWithdraw) else []
  }

  /** Month `j` of the contribution stream. */
  lemma InvestAt(args: SimpleArgs, d: nat, j: nat)
    requires j < d
    ensures (if j < |Expand(InvestStream(args, d))| then Expand(InvestStream(args, d))[j] else 0)
         == if args.monthlyInvest > 0 then args.monthlyInvest else 0
  {
    if args.monthlyInvest > 0 {
      ExpandSingle(Period(d, args.monthlyInvest));
    }
  }

  /** Month `j` of the withdrawal periods from month `start`. */
  lemma WithdrawPeriodsAt(start: nat, d: nat, w: int, j: nat)
    requires start <= d && j < d
    ensures |Expand(WithdrawPeriods(start, d, w))| == d
    ensures Expand(WithdrawPeriods(start, d, w))[j] == if start <= j then -w else 0
  {
    var wait, run := Period(start, 0), Period(d - start, -w);
    ExpandSingle(run);
    if start > 0 {
      ExpandSingle(wait);
      ExpandConcat([wait], [run]);
    } else {
      assert WithdrawPeriods(start, d, w) == [run];
    }
  }

  /** Month `j` of the withdrawal stream. */
  lemma WithdrawAt(args: SimpleArgs, d: nat, j: nat)
    requires j < d
    ensures (if j < |Expand(WithdrawStream(args, d))| then Expand(WithdrawStream(args, d))[j] else 0)
         == if WithdrawFrom(args, d).Some? && WithdrawFrom(args, d).value <= j then -args.monthlyWithdraw else 0
  {
    match WithdrawFrom(args, d)
    case None =>
    case Some(start) =>
      WithdrawPeriodsAt(start, d, args.monthlyWithdraw, j);
  }

  /** Summing the two streams gives the simple-mode flows. */
  lemma SimpleStreamsSum(args: SimpleArgs, d: nat)
    ensures Summed([InvestStream(args, d), WithdrawStream(args, d)], d) == SimpleFlows(args, d)
  {
    var invest, withdraw := InvestStream(args, d), WithdrawStream(args, d);
    var streams := [invest, withdraw];
    var zero := SummedFirst(streams, 0, d);
    var one := SummedFirst(streams, 1, d);
    var sum := Summed(streams, d);
    assert one == AddStream(zero, invest);
    assert sum == AddStream(one, withdraw);
    forall j | 0 <= j < d
      ensures sum[j] == SimpleFlows(args, d)[j]
    {
      InvestAt(args, d, j);
      WithdrawAt(args, d, j);
    }
  }

  /**
   * The withdrawal pushes for the offset `diff = max(0, diff)`: when it is
   * below the duration, a zero-flow wait of `diff` months if it is positive,
   * then the withdrawal for the remaining months.
   */
  method PushWithdrawals(diff: JsNum, d: nat, w: int) returns (withdraw: seq<Period>)
    requires diff.Finite? ==> diff.value >= 0.0
    ensures withdraw == OffsetStream(diff, d, w)
  {
    withdraw := [];
    if Less(diff, d) && diff.Finite? {
      var start := LoopCount(diff.value);
      WaitWhenLater(diff.value, d, w);
      if diff.value > 0.0 {
        withdraw := withdraw + [Period(start, 0)];
      }
      withdraw := withdraw + [Period(d - start, -w)];
    }
  }

  /**
   * The simple mode's periods: the contribution for every month when it is
   * positive, plus the withdrawal (negated) from its start month on, cut
   * into runs of equal flow.
   */
  method GenerateSimplePeriods(args: SimpleArgs, durationMonths: nat) returns (r: seq<Period>)
    ensures r == Runs(SimpleFlows(args, durationMonths))
    ensures Positive(r) && Coalesced(r) && TotalMonths(r) == durationMonths
    ensures Expand(r) == SimpleFlows(args, durationMonths)
  {
    var d := durationMonths;
    var invest: seq<Period> := [];
    var withdraw: seq<Period> := [];
    if args.monthlyInvest > 0 {
      invest := invest + [Period(d, args.monthlyInvest)];
    }
    assert invest == InvestStream(args, d);
    if args.monthlyWithdraw > 0 && args.withdrawStartYm.Some? && args.withdrawStartYm.value != "" {
      var diff := Max0(DiffMonthsSafe(args.startYm, args.withdrawStartYm.value));
      withdraw := PushWithdrawals(diff, d, args.monthlyWithdraw);
    }
    assert [invest, withdraw] == [InvestStream(args, d), WithdrawStream(args, d)];
    r := MergeStreams([invest, withdraw], d);
    SimpleStreamsSum(args, d);
  }
}
