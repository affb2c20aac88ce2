/**
 * Compiling a cash-flow schedule to canonical periods: merging equal
 * neighbours, clamping or padding to the scenario's duration, and the
 * per-month expansion. Each method is proved against a function that
 * describes its result, and that function against the month-by-month
 * meaning `Expand` of its input.
 */
module PeriodsSchedule {
  import opened Periods

  function Min(a: int, b: int): (r: int) {
    if a < b then a else b
  }

  // ---------------------------------------------------------------------
  // mergeConsecutive
  // ---------------------------------------------------------------------

  /**
   * One step of coalescing: `p` lengthens the last period of `m` when the
   * flows agree, and is appended otherwise.
   */
  function MergeLast(m: seq<Period>, p: Period): (r: seq<Period>)
    ensures |r| == |m| || |r| == |m| + 1
    ensures r != [] && r[|r| - 1].flow == p.flow
  {
    if m != [] && m[|m| - 1].flow == p.flow then m[|m| - 1 := Period(m[|m| - 1].months + p.months, p.flow)]
    else m + [p]
  }

  /** The coalescing of the first `n` periods of `ps`, period by period. */
  function MergedFirst(ps: seq<Period>, n: nat): (r: seq<Period>)
    requires n <= |ps|
    ensures |r| <= n && (r == [] <==> n == 0)
  {
    if n == 0 then [] else MergeLast(MergedFirst(ps, n - 1), ps[n - 1])
  }

  /** The coalescing of `ps`. */
  function Merged(ps: seq<Period>): (r: seq<Period>) {
    MergedFirst(ps, |ps|)
  }

  /** A merge step keeps a coalesced list coalesced. */
  lemma MergeLastCoalesced(m: seq<Period>, p: Period)
    requires Coalesced(m)
    ensures Coalesced(MergeLast(m, p))
  {
  }

  /** A merge step adds `p`'s months to the total. */
  lemma MergeLastTotal(m: seq<Period>, p: Period)
    ensures TotalMonths(MergeLast(m, p)) == TotalMonths(m) + p.months
  {
    if m != [] && m[|m| - 1].flow == p.flow {
      var r := MergeLast(m, p);
      TotalFirstAgree(r, m, |m| - 1);
    } else {
      TotalMonthsSnoc(m, p);
    }
  }

  /** A merge step of a positive period extends the expansion by that period's months. */
  lemma MergeLastExpand(m: seq<Period>, p: Period)
    requires Positive(m) && p.months > 0
    ensures Positive(MergeLast(m, p))
    ensures Expand(MergeLast(m, p)) == Expand(m) + Repeat(p.flow, p.months)
  {
    if m != [] && m[|m| - 1].flow == p.flow {
      var r := MergeLast(m, p);
      var last := m[|m| - 1];
      ExpandFirstAgree(r, m, |m| - 1);
      RepeatConcat(p.flow, last.months, p.months);
      var a, b, c := ExpandFirst(m, |m| - 1), Repeat(p.flow, last.months), Repeat(p.flow, p.months);
      assert a + (b + c) == a + b + c;
    } else {
      ExpandSnoc(m, p);
    }
  }

  /** Merging leaves no two neighbours with the same flow. */
  lemma {:induction false} MergedCoalesced(ps: seq<Period>, n: nat)
    requires n <= |ps|
    ensures Coalesced(MergedFirst(ps, n))
  {
    if n > 0 {
      MergedCoalesced(ps, n - 1);
      MergeLastCoalesced(MergedFirst(ps, n - 1), ps[n - 1]);
    }
  }

  /** Merging keeps the total number of months. */
  lemma {:induction false} MergedTotal(ps: seq<Period>, n: nat)
    requires n <= |ps|
    ensures TotalMonths(MergedFirst(ps, n)) == TotalFirst(ps, n)
  {
    if n > 0 {
      MergedTotal(ps, n - 1);
      MergeLastTotal(MergedFirst(ps, n - 1), ps[n - 1]);
    }
  }

  /** Merging positive periods keeps them positive and keeps their expansion. */
  lemma {:induction false} MergedExpand(ps: seq<Period>, n: nat)
    requires n <= |ps| && Positive(ps)
    ensures Positive(MergedFirst(ps, n)) && Expand(MergedFirst(ps, n)) == ExpandFirst(ps, n)
  {
    if n > 0 {
      MergedExpand(ps, n - 1);
      MergeLastExpand(MergedFirst(ps, n - 1), ps[n - 1]);
    }
  }

  /**
   * Merging gives a coalesced list of the same total; for positive periods
   * it is positive and has the same expansion.
   */
  lemma MergedMeaning(ps: seq<Period>)
    ensures Coalesced(Merged(ps)) && TotalMonths(Merged(ps)) == TotalMonths(ps)
    ensures |Merged(ps)| <= |ps| && (Merged(ps) == [] <==> ps == [])
    ensures Positive(ps) ==> Positive(Merged(ps)) && Expand(Merged(ps)) == Expand(ps)
  {
    MergedCoalesced(ps, |ps|);
    MergedTotal(ps, |ps|);
    if Positive(ps) {
      MergedExpand(ps, |ps|);
    }
  }

  /** Merging changes nothing in a list of positive periods that is already coalesced. */
  lemma MergedCanonical(ps: seq<Period>)
    requires Positive(ps) && Coalesced(ps)
    ensures Merged(ps) == ps
  {
    MergedMeaning(ps);
    CoalescedUnique(Merged(ps), ps);
  }

  /** Merging twice is merging once. */
  lemma MergedIdempotent(ps: seq<Period>)
    requires Positive(ps)
    ensures Merged(Merged(ps)) == Merged(ps)
  {
    MergedMeaning(ps);
    MergedCanonical(Merged(ps));
  }

  /**
   * Joins adjacent periods with equal flows, lengthening the last kept
   * period in place.
   */
  method MergeConsecutive(periods: seq<Period>) returns (r: seq<Period>)
    ensures r == Merged(periods)
    ensures Coalesced(r) && TotalMonths(r) == TotalMonths(periods)
    ensures Positive(periods) ==> Positive(r) && Expand(r) == Expand(periods)
  {
    MergedMeaning(periods);
    if |periods| == 0 {
      return [];
    }
    r := [periods[0]];
    for i := 1 to |periods|
      invariant r == MergedFirst(periods, i)
    {
      var prev := r[|r| - 1];
      var curr := periods[i];
      if prev.flow == curr.flow {
        r := r[|r| - 1 := Period(prev.months + curr.months, prev.flow)];
      } else {
        r := r + [curr];
      }
    }
  }

  // ---------------------------------------------------------------------
  // applyDuration
  // ---------------------------------------------------------------------

  /** The first `n` entries of a concatenation. */
  lemma PrefixOfConcat(a: seq<int>, b: seq<int>, n: nat)
    requires n <= |a| + |b|
    ensures n <= |a| ==> (a + b)[..n] == a[..n]
    ensures n > |a| ==> (a + b)[..n] == a + b[..n - |a|]
  {
    if n <= |a| {
      assert (a + b)[..n] == a[..n];
    } else {
      assert (a + b)[..n] == a + b[..n - |a|];
    }
  }

  /**
   * One step of the clamping loop: with `c` kept so far, `p` is skipped once
   * `d` months are covered, kept whole when it fits and cut to the months
   * still missing otherwise.
   */
  function ClampLast(c: seq<Period>, p: Period, d: nat): (r: seq<Period>)
    ensures r == c || r == c + [p] || r == c + [Period(d - TotalMonths(c), p.flow)]
  {
    var total := TotalMonths(c);
    if total >= d then c
    else if p.months <= d - total then c + [p]
    else c + [Period(d - total, p.flow)]
  }

  /** The periods the clamping loop keeps from the first `n` of `ps` for a duration of `d` months. */
  function ClampedFirst(ps: seq<Period>, n: nat, d: nat): (r: seq<Period>)
    requires n <= |ps|
    ensures |r| <= n
  {
    if n == 0 then [] else ClampLast(ClampedFirst(ps, n - 1, d), ps[n - 1], d)
  }

  /** Once `d` months are covered, the later periods change nothing. */
  lemma {:induction false} ClampedSaturated(ps: seq<Period>, k: nat, n: nat, d: nat)
    requires k <= n <= |ps| && TotalMonths(ClampedFirst(ps, k, d)) >= d
    ensures ClampedFirst(ps, n, d) == ClampedFirst(ps, k, d)
  {
    if k < n {
      ClampedSaturated(ps, k, n - 1, d);
    }
  }

  /** A clamping step on positive periods adds the months of `p` that still fit. */
  lemma ClampLastTotal(c: seq<Period>, p: Period, d: nat, before: int)
    requires Positive(c) && p.months > 0 && before >= 0
    requires TotalMonths(c) == Min(d, before)
    ensures Positive(ClampLast(c, p, d))
    ensures TotalMonths(ClampLast(c, p, d)) == Min(d, before + p.months)
    ensures before + p.months <= d ==> ClampLast(c, p, d) == c + [p]
  {
    var total := TotalMonths(c);
    if total < d {
      if p.months <= d - total {
        TotalMonthsSnoc(c, p);
        ExpandSnoc(c, p);
      } else {
        TotalMonthsSnoc(c, Period(d - total, p.flow));
        ExpandSnoc(c, Period(d - total, p.flow));
      }
    }
  }

  /**
   * Clamping positive periods keeps them positive and covers the smaller of
   * `d` and their total; periods that fit into `d` are kept unchanged.
   */
  lemma {:induction false} ClampedTotal(ps: seq<Period>, n: nat, d: nat)
    requires n <= |ps| && Positive(ps)
    ensures Positive(ClampedFirst(ps, n, d))
    ensures TotalMonths(ClampedFirst(ps, n, d)) == Min(d, TotalFirst(ps, n))
    ensures TotalFirst(ps, n) <= d ==> ClampedFirst(ps, n, d) == ps[..n]
  {
    if n > 0 {
      ClampedTotal(ps, n - 1, d);
      ExpandFirstLength(ps, n - 1);
      ClampLastTotal(ClampedFirst(ps, n - 1, d), ps[n - 1], d, TotalFirst(ps, n - 1));
      if TotalFirst(ps, n) <= d {
        assert ps[..n - 1] + [ps[n - 1]] == ps[..n];
      }
    }
  }

  /**
   * A clamping step on positive periods: when `c` expands to the start of
   * `head`, and to all of it while fewer than `d` months are covered, the
   * step expands to the start of `head` followed by the months of `p`.
   */
  lemma ClampLastExpand(c: seq<Period>, head: seq<int>, p: Period, d: nat)
    requires Positive(c) && p.months > 0
    requires 0 <= TotalMonths(c) <= |head| && Expand(c) == head[..TotalMonths(c)]
    requires TotalMonths(c) < d ==> TotalMonths(c) == |head|
    ensures 0 <= TotalMonths(ClampLast(c, p, d)) <= |head| + p.months
    ensures Expand(ClampLast(c, p, d)) == (head + Repeat(p.flow, p.months))[..TotalMonths(ClampLast(c, p, d))]
  {
    var total := TotalMonths(c);
    var tail := Repeat(p.flow, p.months);
    if total >= d {
      PrefixOfConcat(head, tail, total);
    } else {
      assert head[..total] == head;
      if p.months <= d - total {
        ExpandSnoc(c, p);
        TotalMonthsSnoc(c, p);
        assert (head + tail)[..total + p.months] == head + tail;
      } else {
        ExpandSnoc(c, Period(d - total, p.flow));
        TotalMonthsSnoc(c, Period(d - total, p.flow));
        PrefixOfConcat(head, tail, d);
        assert tail[..d - total] == Repeat(p.flow, d - total);
      }
    }
  }

  /** The periods kept by clamping expand to the start of the whole expansion. */
  lemma {:induction false} ClampedExpand(ps: seq<Period>, n: nat, d: nat)
    requires n <= |ps| && Positive(ps)
    ensures 0 <= TotalMonths(ClampedFirst(ps, n, d)) <= |ExpandFirst(ps, n)|
    ensures Expand(ClampedFirst(ps, n, d)) == ExpandFirst(ps, n)[..TotalMonths(ClampedFirst(ps, n, d))]
  {
    if n == 0 {
      assert ExpandFirst(ps, 0)[..0] == [];
    } else {
      ClampedExpand(ps, n - 1, d);
      ClampedTotal(ps, n - 1, d);
      ExpandFirstLength(ps, n - 1);
      ClampLastExpand(ClampedFirst(ps, n - 1, d), ExpandFirst(ps, n - 1), ps[n - 1], d);
    }
  }

  /** The periods the clamping loop keeps from `ps`. */
  function Clamped(ps: seq<Period>, d: nat): (r: seq<Period>) {
    ClampedFirst(ps, |ps|, d)
  }

  /** `c` followed by `n` one-month periods of `flow`. */
  function Pad(c: seq<Period>, n: nat, flow: int): (r: seq<Period>)
    ensures |r| == |c| + n
  {
    if n == 0 then c else Pad(c, n - 1, flow) + [Period(1, flow)]
  }

  /** Padding adds `n` months of `flow` to the expansion. */
  lemma {:induction false} PadExpand(c: seq<Period>, n: nat, flow: int)
    requires Positive(c)
    ensures Positive(Pad(c, n, flow))
    ensures TotalMonths(Pad(c, n, flow)) == TotalMonths(c) + n
    ensures Expand(Pad(c, n, flow)) == Expand(c) + Repeat(flow, n)
  {
    if n > 0 {
      var prev := Pad(c, n - 1, flow);
      PadExpand(c, n - 1, flow);
      ExpandSnoc(prev, Period(1, flow));
      TotalMonthsSnoc(prev, Period(1, flow));
      RepeatConcat(flow, n - 1, 1);
      var a, b, e := Expand(c), Repeat(flow, n - 1), Repeat(flow, 1);
      assert a + b + e == a + (b + e);
    }
  }

  /** The clamped periods, padded month by month with their last flow up to `d` months. */
  function Padded(c: seq<Period>, d: nat): (r: seq<Period>) {
    var total := TotalMonths(c);
    if total < d then Pad(c, d - total, LastFlow(c)) else c
  }

  /** What `applyDuration` returns: the clamped, padded and merged periods. */
  function DurationApplied(ps: seq<Period>, d: nat): (r: seq<Period>) {
    Merged(Padded(Clamped(ps, d), d))
  }

  /** Padding a list that expands to all of `whole` with `d - |whole|` months of `pad` fits `whole` to `d`. */
  lemma FitPadded(whole: seq<int>, d: nat, pad: int, e: seq<int>)
    requires |whole| <= d && e == whole + Repeat(pad, d - |whole|)
    ensures e == Fit(whole, d, pad)
  {
  }

  /** Clamping and padding positive periods to `d` months gives their per-month flows over `d` months. */
  lemma PaddedMeaning(ps: seq<Period>, d: nat)
    requires Positive(ps)
    ensures Positive(Padded(Clamped(ps, d), d))
    ensures TotalMonths(Padded(Clamped(ps, d), d)) == d
    ensures Expand(Padded(Clamped(ps, d), d)) == MonthlyFlows(ps, d)
  {
    var c := Clamped(ps, d);
    ClampedTotal(ps, |ps|, d);
    ClampedExpand(ps, |ps|, d);
    ExpandLength(ps);
    var total := TotalMonths(c);
    if total < d {
      assert c == ps;
      PadExpand(c, d - total, LastFlow(c));
      FitPadded(Expand(ps), d, LastFlow(ps), Expand(Padded(c, d)));
    }
  }

  /**
   * Applying a duration of `d` months to positive periods gives positive,
   * coalesced periods of exactly `d` months whose per-month flows are the
   * original ones cut at `d`, or padded with the last flow.
   */
  lemma DurationAppliedMeaning(ps: seq<Period>, d: nat)
    requires Positive(ps)
    ensures Positive(DurationApplied(ps, d)) && Coalesced(DurationApplied(ps, d))
    ensures TotalMonths(DurationApplied(ps, d)) == d
    ensures DurationApplied(ps, d) == [] <==> d == 0
    ensures Expand(DurationApplied(ps, d)) == MonthlyFlows(ps, d)
  {
    var padded := Padded(Clamped(ps, d), d);
    PaddedMeaning(ps, d);
    MergedMeaning(padded);
    ExpandLength(padded);
    ExpandLength(Merged(padded));
  }

  /** `DurationApplied` is the only positive, coalesced list with its per-month flows. */
  lemma DurationAppliedCanonical(ps: seq<Period>, d: nat, r: seq<Period>)
    requires Positive(ps) && Positive(r) && Coalesced(r)
    requires Expand(r) == MonthlyFlows(ps, d)
    ensures r == DurationApplied(ps, d)
  {
    DurationAppliedMeaning(ps, d);
    CoalescedUnique(r, DurationApplied(ps, d));
  }

  /**
   * Clamps or pads `periods` to exactly `durationMonths` months: periods are
   * kept in order until the duration is filled, the one crossing the
   * boundary is cut, and a shortfall is filled month by month with the last
   * kept flow (0 when nothing was kept); equal neighbours are then merged.
   */
  method ApplyDuration(periods: seq<Period>, durationMonths: nat) returns (r: seq<Period>)
    requires Positive(periods)
    ensures r == DurationApplied(periods, durationMonths)
    ensures Positive(r) && Coalesced(r)
    ensures TotalMonths(r) == durationMonths
    ensures r == [] <==> durationMonths == 0
    ensures Expand(r) == MonthlyFlows(periods, durationMonths)
  {
    var result: seq<Period> := [];
    var total := 0;
    for k := 0 to |periods|
      invariant result == ClampedFirst(periods, k, durationMonths)
      invariant total == TotalMonths(result)
    {
      if total >= durationMonths {
        ClampedSaturated(periods, k, |periods|, durationMonths);
        break;
      }
      var remaining := durationMonths - total;
      var period := periods[k];
      if period.months <= remaining {
        TotalMonthsSnoc(result, period);
        result := result + [period];
        total := total + period.months;
      } else {
        TotalMonthsSnoc(result, Period(remaining, period.flow));
        result := result + [Period(remaining, period.flow)];
        total := total + remaining;
      }
    }
    if total < durationMonths {
      var lastFlow := if |result| > 0 then result[|result| - 1].flow else 0;
      var remaining := durationMonths - total;
      ghost var clamped := result;
      for i := 0 to remaining
        invariant result == Pad(clamped, i, lastFlow)
      {
        result := result + [Period(1, lastFlow)];
      }
    }
    r := MergeConsecutive(result);
    DurationAppliedMeaning(periods, durationMonths);
  }

  // ---------------------------------------------------------------------
  // monthlySequence
  // ---------------------------------------------------------------------

  /**
   * Expands `periods` into exactly `durationMonths` monthly flows: each
   * period's flow for its months until the array is full, then the last
   * period's flow for the months left over; all zeros for no periods.
   */
  method MonthlySequence(periods: seq<Period>, durationMonths: nat) returns (r: seq<int>)
    ensures r == MonthlyFlows(periods, durationMonths)
  {
    var d := durationMonths;
    var result := new int[d](_ => 0);
    var index := 0;
    ghost var whole := Expand(periods);
    for p := 0 to |periods|
      invariant index == Min(d, |ExpandFirst(periods, p)|) && index <= |whole|
      invariant forall j :: 0 <= j < index ==> result[j] == whole[j]
      invariant forall j :: index <= j < d ==> result[j] == 0
    {
      var period := periods[p];
      ghost var start := |ExpandFirst(periods, p)|;
      ghost var before := index;
      ExpandFirstPrefix(periods, p + 1, |periods|);
      index := WriteRun(result, index, period.months, period.flow);
      forall j | before <= j < index
        ensures result[j] == whole[j]
      {
        ExpandAt(periods, p, j - start);
      }
    }
    if index < d && |periods| > 0 {
      ghost var before := index;
      index := WriteRun(result, index, d - index, periods[|periods| - 1].flow);
      assert before == |whole|;
    }
    r := result[..];
    assert periods == [] ==> whole == [];
    assert forall j :: 0 <= j < d ==> r[j] == MonthlyFlows(periods, d)[j];
  }

  /**
   * Writes `flow` into at most `months` cells of `a` from `index` on,
   * stopping at the end of the array; returns the index after the last
   * cell written.
   */
  method WriteRun(a: array<int>, index: nat, months: int, flow: int) returns (next: nat)
    requires index <= a.Length
    modifies a
    ensures next == Min(a.Length, index + (if months > 0 then months else 0))
    ensures forall j :: 0 <= j < a.Length ==> a[j] == if index <= j < next then flow else old(a[j])
  {
    next := index;
    var i := 0;
    while i < months && next < a.Length
      invariant 0 <= i <= (if months > 0 then months else 0)
      invariant next == Min(a.Length, index + i)
      invariant forall j :: 0 <= j < a.Length ==> a[j] == if index <= j < next then flow else old(a[j])
    {
      a[next] := flow;
      i := i + 1;
      next := next + 1;
    }
  }
}
