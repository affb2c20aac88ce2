/**
 * Flattening period blocks: each block replays its pattern cyclically for
 * `repeatYears * 12` months, the last emitted period cut to the months left,
 * and the blocks follow each other in list order.
 */
module PeriodsBlocks {
  import opened Periods

  /**
   * A block the flattening loop gets through: one with no years to fill, or
   * with a non-empty pattern of periods of a month or more. (On an empty
   * pattern with years to fill the loop never ends.)
   */
  predicate Replayable(b: PeriodBlock) {
    b.repeatYears <= 0 || (b.pattern != [] && Positive(b.pattern))
  }

  /** The months a block fills: `repeatYears * 12`, nothing when that is not positive. */
  function BlockMonths(b: PeriodBlock): (r: nat) {
    if b.repeatYears > 0 then b.repeatYears * 12 else 0
  }

  /**
   * The periods the replay emits from item `k` of `pattern` on, with
   * `remaining` months still to fill: each item for its months or for what
   * is left, starting over at the first item after the last.
   */
  function Replay(pattern: seq<Period>, k: nat, remaining: int): (r: seq<Period>)
    requires k <= |pattern|
    requires remaining > 0 ==> pattern != [] && Positive(pattern)
    decreases remaining, if k < |pattern| then |pattern| - k else |pattern| + 1
  {
    if remaining <= 0 then []
    else if k == |pattern| then Replay(pattern, 0, remaining)
    else
      var m := Emitted(pattern[k], remaining);
      [Period(m, pattern[k].flow)] + Replay(pattern, k + 1, remaining - m)
  }

  /** `Math.min(item.months, remaining)`: the months an item gets when `remaining` are left. */
  function Emitted(item: Period, remaining: int): (r: int) {
    if item.months < remaining then item.months else remaining
  }

  /** An item of the pattern is emitted for its months or for the months left, followed by the rest of the replay. */
  lemma ReplayNext(pattern: seq<Period>, k: nat, remaining: int)
    requires k < |pattern| && remaining > 0 && Positive(pattern)
    ensures 0 < Emitted(pattern[k], remaining) <= remaining
    ensures Replay(pattern, k, remaining)
         == [Period(Emitted(pattern[k], remaining), pattern[k].flow)] + Replay(pattern, k + 1, remaining - Emitted(pattern[k], remaining))
  {
  }

  /** Past the last item the replay starts over at the first. */
  lemma ReplayWrap(pattern: seq<Period>, remaining: int)
    requires pattern != [] && Positive(pattern)
    ensures Replay(pattern, |pattern|, remaining) == Replay(pattern, 0, remaining)
  {
  }

  /** The periods one block flattens to. */
  function BlockPeriods(b: PeriodBlock): (r: seq<Period>)
    requires Replayable(b)
  {
    Replay(b.pattern, 0, b.repeatYears * 12)
  }

  /** Every block of `bs` is replayable. */
  predicate AllReplayable(bs: seq<PeriodBlock>) {
    forall k :: 0 <= k < |bs| ==> Replayable(bs[k])
  }

  /** The periods the first `n` blocks flatten to, block after block. */
  function FlattenFirst(bs: seq<PeriodBlock>, n: nat): (r: seq<Period>)
    requires n <= |bs| && AllReplayable(bs)
  {
    if n == 0 then [] else FlattenFirst(bs, n - 1) + BlockPeriods(bs[n - 1])
  }

  /** The periods a block list flattens to. */
  function Flatten(bs: seq<PeriodBlock>): (r: seq<Period>)
    requires AllReplayable(bs)
  {
    FlattenFirst(bs, |bs|)
  }

  /** The months the first `n` blocks fill. */
  function MonthsFirst(bs: seq<PeriodBlock>, n: nat): (r: nat)
    requires n <= |bs|
  {
    if n == 0 then 0 else MonthsFirst(bs, n - 1) + BlockMonths(bs[n - 1])
  }

  /** One period followed by more: its months, then theirs. */
  lemma ExpandCons(p: Period, rest: seq<Period>)
    ensures Expand([p] + rest) == Repeat(p.flow, p.months) + Expand(rest)
    ensures TotalMonths([p] + rest) == p.months + TotalMonths(rest)
    ensures p.months > 0 && Positive(rest) ==> Positive([p] + rest)
  {
    ExpandConcat([p], rest);
    assert ExpandFirst([p], 1) == [] + Repeat(p.flow, p.months);
    TotalMonthsCons(p, rest);
  }

  /** A period in front adds its months to the total, and keeps a positive list positive. */
  lemma TotalMonthsCons(p: Period, rest: seq<Period>)
    ensures TotalMonths([p] + rest) == p.months + TotalMonths(rest)
    ensures p.months > 0 && Positive(rest) ==> Positive([p] + rest)
  {
    ExpandConcat([p], rest);
    assert TotalFirst([p], 1) == 0 + p.months;
  }

  /** The replay emits periods of a month or more that fill exactly the remaining months. */
  lemma {:induction false} ReplayTotal(pattern: seq<Period>, k: nat, remaining: int)
    requires k <= |pattern|
    requires remaining > 0 ==> pattern != [] && Positive(pattern)
    ensures Positive(Replay(pattern, k, remaining))
    ensures TotalMonths(Replay(pattern, k, remaining)) == if remaining > 0 then remaining else 0
    decreases remaining, if k < |pattern| then |pattern| - k else |pattern| + 1
  {
    if remaining > 0 {
      if k == |pattern| {
        ReplayWrap(pattern, remaining);
        ReplayTotal(pattern, 0, remaining);
      } else {
        ReplayTotal(pattern, k + 1, remaining - Emitted(pattern[k], remaining));
        ReplayTotalStep(pattern, k, remaining);
      }
    }
  }

  /** One emitted item adds its months to the total of the rest of the replay. */
  lemma ReplayTotalStep(pattern: seq<Period>, k: nat, remaining: int)
    requires k < |pattern| && remaining > 0 && Positive(pattern)
    requires Positive(Replay(pattern, k + 1, remaining - Emitted(pattern[k], remaining)))
    requires TotalMonths(Replay(pattern, k + 1, remaining - Emitted(pattern[k], remaining))) == remaining - Emitted(pattern[k], remaining)
    ensures Positive(Replay(pattern, k, remaining)) && TotalMonths(Replay(pattern, k, remaining)) == remaining
  {
    var m := Emitted(pattern[k], remaining);
    ReplayNext(pattern, k, remaining);
    TotalMonthsCons(Period(m, pattern[k].flow), Replay(pattern, k + 1, remaining - m));
  }

  /** Starting a cycle over shifts the month within the pattern by a whole pattern length. */
  lemma CycleShift(t: nat, i: nat)
    requires t > 0
    ensures (t + i) % t == i % t
  {
    var q, r := i / t, i % t;
    assert t + i == (q + 1) * t + r;
    ModUnique(t + i, t, q + 1, r);
  }

  /** The remainder is the `r` of any `x == q * t + r` with `0 <= r < t`. */
  lemma ModUnique(x: int, t: int, q: int, r: int)
    requires t > 0 && x == q * t + r && 0 <= r < t
    ensures x % t == r
  {
    var q2, r2 := x / t, x % t;
    assert x == q2 * t + r2 && 0 <= r2 < t;
    if q2 > q {
      MulGap(q2, q, t);
      assert false;
    } else if q2 < q {
      MulGap(q, q2, t);
      assert false;
    }
  }

  /** Multiples of `t` with different factors lie at least `t` apart. */
  lemma MulGap(a: int, b: int, t: int)
    requires a > b && t > 0
    ensures a * t - b * t >= t
  {
    MulAtLeast(a - b, t);
    assert (a - b) * t == a * t - b * t;
  }

  lemma {:induction false} MulAtLeast(a: int, t: int)
    requires a >= 1 && t > 0
    ensures a * t >= t
    decreases a
  {
    if a > 1 {
      MulAtLeast(a - 1, t);
      assert a * t == (a - 1) * t + t;
    }
  }

  /** Month `i` of one period followed by more. */
  lemma ConsAt(q: Period, rest: seq<Period>, i: nat)
    requires 0 <= q.months && i < q.months + |Expand(rest)|
    ensures i < |Expand([q] + rest)|
    ensures Expand([q] + rest)[i] == if i < q.months then q.flow else Expand(rest)[i - q.months]
  {
    ExpandCons(q, rest);
  }

  /**
   * Month `i` of the replay from item `k` is the pattern's month
   * `TotalFirst(pattern, k) + i`, counted cyclically over the pattern.
   */
  lemma {:induction false} ReplayAt(pattern: seq<Period>, k: nat, remaining: int, i: nat)
    requires k <= |pattern| && pattern != [] && Positive(pattern)
    requires i < remaining
    ensures |Expand(pattern)| == TotalMonths(pattern) > 0 && i < |Expand(Replay(pattern, k, remaining))|
    ensures Expand(Replay(pattern, k, remaining))[i]
         == Expand(pattern)[(TotalFirst(pattern, k) + i) % TotalMonths(pattern)]
    decreases remaining, if k < |pattern| then |pattern| - k else |pattern| + 1
  {
    var t, e := TotalMonths(pattern), Expand(pattern);
    ExpandLength(pattern);
    ReplayTotal(pattern, k, remaining);
    ExpandLength(Replay(pattern, k, remaining));
    if k == |pattern| {
      ReplayWrap(pattern, remaining);
      ReplayAt(pattern, 0, remaining, i);
      CycleShift(t, i);
    } else if i < Emitted(pattern[k], remaining) {
      ReplayAtItem(pattern, k, remaining, i);
    } else {
      var m := Emitted(pattern[k], remaining);
      var rest := Replay(pattern, k + 1, remaining - m);
      ReplayNext(pattern, k, remaining);
      ReplayAt(pattern, k + 1, remaining - m, i - m);
      ConsAt(Period(m, pattern[k].flow), rest, i);
      assert TotalFirst(pattern, k) + i == TotalFirst(pattern, k + 1) + (i - m);
    }
  }

  /** A month within the item the replay is at is that item's month of the pattern. */
  lemma ReplayAtItem(pattern: seq<Period>, k: nat, remaining: int, i: nat)
    requires k < |pattern| && Positive(pattern)
    requires i < Emitted(pattern[k], remaining)
    ensures |Expand(pattern)| == TotalMonths(pattern) > 0 && i < |Expand(Replay(pattern, k, remaining))|
    ensures Expand(Replay(pattern, k, remaining))[i]
         == Expand(pattern)[(TotalFirst(pattern, k) + i) % TotalMonths(pattern)]
  {
    var t, e, before := TotalMonths(pattern), Expand(pattern), TotalFirst(pattern, k);
    var m := Emitted(pattern[k], remaining);
    var rest := Replay(pattern, k + 1, remaining - m);
    var q := Period(m, pattern[k].flow);
    ExpandLength(pattern);
    ReplayNext(pattern, k, remaining);
    assert Replay(pattern, k, remaining) == [q] + rest;
    ConsAt(q, rest, i);
    var x := Expand([q] + rest);
    assert i < |x| && x[i] == pattern[k].flow;
    assert Expand(Replay(pattern, k, remaining)) == x;
    ExpandFirstLength(pattern, k);
    ExpandAt(pattern, k, i);
    assert before + i < t && e[before + i] == pattern[k].flow;
    CycleWithin(e, before + i);
  }

  /** A position within one cycle is its own cyclic position. */
  lemma CycleWithin<T>(e: seq<T>, x: nat)
    requires x < |e|
    ensures e[x % |e|] == e[x]
  {
    ModUnique(x, |e|, 0, x);
  }

  /**
   * A block fills exactly its `repeatYears * 12` months with periods of a
   * month or more, and month `i` of it is month `i` of its pattern replayed
   * cyclically.
   */
  lemma BlockCycle(b: PeriodBlock, i: nat)
    requires Replayable(b) && i < BlockMonths(b)
    ensures Positive(BlockPeriods(b)) && TotalMonths(BlockPeriods(b)) == BlockMonths(b)
    ensures |Expand(b.pattern)| == TotalMonths(b.pattern) > 0 && i < |Expand(BlockPeriods(b))|
    ensures Expand(BlockPeriods(b))[i] == Expand(b.pattern)[i % TotalMonths(b.pattern)]
  {
    ReplayTotal(b.pattern, 0, b.repeatYears * 12);
    ReplayAt(b.pattern, 0, b.repeatYears * 12, i);
  }

  /** The first `n` blocks flatten to periods of a month or more filling each block's months. */
  lemma {:induction false} FlattenFirstTotal(bs: seq<PeriodBlock>, n: nat)
    requires n <= |bs| && AllReplayable(bs)
    ensures Positive(FlattenFirst(bs, n)) && TotalMonths(FlattenFirst(bs, n)) == MonthsFirst(bs, n)
  {
    if n > 0 {
      var b := bs[n - 1];
      FlattenFirstTotal(bs, n - 1);
      ReplayTotal(b.pattern, 0, b.repeatYears * 12);
      ExpandConcat(FlattenFirst(bs, n - 1), BlockPeriods(b));
    }
  }

  /** The first `|a| + j` blocks of `a + b` flatten to all of `a`'s periods, then those of the first `j` of `b`. */
  lemma {:induction false} FlattenFirstConcat(a: seq<PeriodBlock>, b: seq<PeriodBlock>, j: nat)
    requires j <= |b| && AllReplayable(a) && AllReplayable(b)
    ensures AllReplayable(a + b)
    ensures FlattenFirst(a + b, |a| + j) == Flatten(a) + FlattenFirst(b, j)
  {
    var ab := a + b;
    assert AllReplayable(ab) by {
      forall k | 0 <= k < |ab|
        ensures Replayable(ab[k])
      {
        if k >= |a| {
          assert ab[k] == b[k - |a|];
        }
      }
    }
    if j == 0 {
      FlattenFirstAgree(ab, a, |a|);
    } else {
      FlattenFirstConcat(a, b, j - 1);
      var x, y, z := Flatten(a), FlattenFirst(b, j - 1), BlockPeriods(b[j - 1]);
      assert x + y + z == x + (y + z);
    }
  }

  /** Block lists that agree on their first `n` blocks flatten those blocks alike. */
  lemma {:induction false} FlattenFirstAgree(a: seq<PeriodBlock>, b: seq<PeriodBlock>, n: nat)
    requires n <= |a| && n <= |b| && AllReplayable(a) && AllReplayable(b)
    requires forall k :: 0 <= k < n ==> a[k] == b[k]
    ensures FlattenFirst(a, n) == FlattenFirst(b, n)
  {
    if n > 0 {
      FlattenFirstAgree(a, b, n - 1);
    }
  }

  /** Flattening a concatenation of block lists flattens each list in turn. */
  lemma FlattenConcat(a: seq<PeriodBlock>, b: seq<PeriodBlock>)
    requires AllReplayable(a) && AllReplayable(b)
    ensures AllReplayable(a + b)
    ensures Flatten(a + b) == Flatten(a) + Flatten(b)
  {
    FlattenFirstConcat(a, b, |b|);
  }

  /**
   * Flattens `blocks` into one period list: each block's pattern is
   * replayed item by item until its `repeatYears * 12` months are filled,
   * the last item cut to the months left.
   */
  method FlattenBlocks(blocks: seq<PeriodBlock>) returns (periods: seq<Period>)
    requires AllReplayable(blocks)
    ensures periods == Flatten(blocks)
    ensures Positive(periods) && TotalMonths(periods) == MonthsFirst(blocks, |blocks|)
  {
    FlattenFirstTotal(blocks, |blocks|);
    periods := [];
    for b := 0 to |blocks|
      invariant periods == FlattenFirst(blocks, b)
    {
      periods := EmitBlock(periods, blocks[b]);
    }
  }

  /**
   * Appends one block's periods: its pattern replayed item by item until
   * its `repeatYears * 12` months are filled, the last item cut to the
   * months left.
   */
  method EmitBlock(periods: seq<Period>, block: PeriodBlock) returns (r: seq<Period>)
    requires Replayable(block)
    ensures r == periods + BlockPeriods(block)
  {
    r := periods;
    var pattern := block.pattern;
    var totalMonths := block.repeatYears * 12;
    var remaining := totalMonths;
    ghost var target := periods + BlockPeriods(block);
    while remaining > 0
      invariant remaining <= totalMonths
      invariant r + Replay(pattern, 0, remaining) == target
      decreases remaining
    {
      ghost var start := remaining;
      for k := 0 to |pattern|
        invariant remaining <= start && (k > 0 ==> remaining < start)
        invariant r + Replay(pattern, k, remaining) == target
      {
        if remaining <= 0 {
          break;
        }
        var item := pattern[k];
        var months := if item.months < remaining then item.months else remaining;
        ReplayNext(pattern, k, remaining);
        ghost var emitted, rest := [Period(months, item.flow)], Replay(pattern, k + 1, remaining - months);
        assert r + emitted + rest == r + (emitted + rest);
        r := r + [Period(months, item.flow)];
        remaining := remaining - months;
      }
    }
  }
}
