/**
 * The cash-flow schedule's data: a Period is a constant monthly net flow held
 * for a number of months, a PeriodBlock replays a pattern of periods for a
 * number of years. The month-by-month meaning of a period list, `Expand`, is
 * the specification every schedule operation is proved against.
 */
module Periods {
  import opened Wrappers

  /** `{ months, flow }`: `flow` (positive = contribution, negative = withdrawal) for `months` months. */
  datatype Period = Period(months: int, flow: int)

  /** `{ pattern, repeatYears, name? }`. */
  datatype PeriodBlock = PeriodBlock(pattern: seq<Period>, repeatYears: int, name: Option<string>)

  /** `n` copies of `x` (none when `n` is not positive). */
  function Repeat(x: int, n: int): (r: seq<int>)
    ensures |r| == if n > 0 then n else 0
    ensures forall k :: 0 <= k < |r| ==> r[k] == x
  {
    seq(if n > 0 then n else 0, _ => x)
  }

  /** The monthly flows of the first `n` periods of `ps`, one entry per month. */
  function ExpandFirst(ps: seq<Period>, n: nat): (r: seq<int>)
    requires n <= |ps|
  {
    if n == 0 then [] else ExpandFirst(ps, n - 1) + Repeat(ps[n - 1].flow, ps[n - 1].months)
  }

  /** The monthly flows a period list stands for. */
  function Expand(ps: seq<Period>): (r: seq<int>) {
    ExpandFirst(ps, |ps|)
  }

  /** The sum of the months of the first `n` periods of `ps`. */
  function TotalFirst(ps: seq<Period>, n: nat): (r: int)
    requires n <= |ps|
  {
    if n == 0 then 0 else TotalFirst(ps, n - 1) + ps[n - 1].months
  }

  /** The sum of the periods' months. */
  function TotalMonths(ps: seq<Period>): (r: int) {
    TotalFirst(ps, |ps|)
  }

  /** Every period lasts at least one month. */
  predicate Positive(ps: seq<Period>) {
    forall k :: 0 <= k < |ps| ==> ps[k].months > 0
  }

  /** No two adjacent periods carry the same flow. */
  predicate Coalesced(ps: seq<Period>) {
    forall k :: 0 < k < |ps| ==> ps[k - 1].flow != ps[k].flow
  }

  /** The flow of the last period, or 0 for an empty list. */
  function LastFlow(ps: seq<Period>): (r: int) {
    if ps == [] then 0 else ps[|ps| - 1].flow
  }

  /** `s` cut to `d` entries, or padded to `d` entries with `pad`. */
  function Fit(s: seq<int>, d: nat, pad: int): (r: seq<int>)
    ensures |r| == d
    ensures forall k :: 0 <= k < d ==> r[k] == if k < |s| then s[k] else pad
  {
    if |s| >= d then s[..d] else s + Repeat(pad, d - |s|)
  }

  /**
   * The per-month flows of `ps` over `d` months: the expansion cut at `d`,
   * padded with the last period's flow (0 when there is no period).
   */
  function MonthlyFlows(ps: seq<Period>, d: nat): (r: seq<int>)
    ensures |r| == d
  {
    Fit(Expand(ps), d, LastFlow(ps))
  }

  lemma RepeatConcat(x: int, m: nat, n: nat)
    ensures Repeat(x, m) + Repeat(x, n) == Repeat(x, m + n)
  {
  }

  /** Lists that agree on their first `n` periods agree on those periods' expansion. */
  lemma {:induction false} ExpandFirstAgree(a: seq<Period>, b: seq<Period>, n: nat)
    requires n <= |a| && n <= |b|
    requires forall k :: 0 <= k < n ==> a[k] == b[k]
    ensures ExpandFirst(a, n) == ExpandFirst(b, n)
  {
    if n > 0 {
      ExpandFirstAgree(a, b, n - 1);
    }
  }

  /** Lists that agree on their first `n` periods agree on those periods' months. */
  lemma {:induction false} TotalFirstAgree(a: seq<Period>, b: seq<Period>, n: nat)
    requires n <= |a| && n <= |b|
    requires forall k :: 0 <= k < n ==> a[k] == b[k]
    ensures TotalFirst(a, n) == TotalFirst(b, n)
  {
    if n > 0 {
      TotalFirstAgree(a, b, n - 1);
    }
  }

  /** The expansion of a prefix is the expansion of that many first periods. */
  lemma ExpandTake(ps: seq<Period>, n: nat)
    requires n <= |ps|
    ensures Expand(ps[..n]) == ExpandFirst(ps, n)
    ensures TotalMonths(ps[..n]) == TotalFirst(ps, n)
  {
    ExpandFirstAgree(ps[..n], ps, n);
    TotalFirstAgree(ps[..n], ps, n);
  }

  /** Appending one period extends the total by its months. */
  lemma TotalMonthsSnoc(ps: seq<Period>, p: Period)
    ensures TotalMonths(ps + [p]) == TotalMonths(ps) + p.months
  {
    TotalFirstAgree(ps + [p], ps, |ps|);
  }

  /** Appending one period extends the expansion by its months. */
  lemma ExpandSnoc(ps: seq<Period>, p: Period)
    ensures Expand(ps + [p]) == Expand(ps) + Repeat(p.flow, p.months)
    ensures Positive(ps) && p.months > 0 ==> Positive(ps + [p])
  {
    ExpandFirstAgree(ps + [p], ps, |ps|);
  }

  /** A single period expands to its flow for its months. */
  lemma ExpandSingle(p: Period)
    ensures Expand([p]) == Repeat(p.flow, p.months) && TotalMonths([p]) == p.months
  {
    assert ExpandFirst([p], 0) == [];
    assert ExpandFirst([p], 1) == [] + Repeat(p.flow, p.months);
    assert [] + Repeat(p.flow, p.months) == Repeat(p.flow, p.months);
    assert TotalFirst([p], 1) == TotalFirst([p], 0) + p.months;
  }

  /** For periods that all last a month or more, the expansion has one entry per month. */
  lemma {:induction false} ExpandFirstLength(ps: seq<Period>, n: nat)
    requires n <= |ps| && Positive(ps)
    ensures |ExpandFirst(ps, n)| == TotalFirst(ps, n) >= n
    ensures n > 0 ==> ExpandFirst(ps, n)[|ExpandFirst(ps, n)| - 1] == ps[n - 1].flow
  {
    if n > 0 {
      ExpandFirstLength(ps, n - 1);
    }
  }

  /** For periods that all last a month or more, the expansion has one entry per month. */
  lemma ExpandLength(ps: seq<Period>)
    requires Positive(ps)
    ensures |Expand(ps)| == TotalMonths(ps) >= |ps|
    ensures ps != [] ==> |Expand(ps)| > 0 && Expand(ps)[|Expand(ps)| - 1] == LastFlow(ps)
  {
    ExpandFirstLength(ps, |ps|);
  }

  /** The expansion of fewer first periods is a prefix of the expansion of more. */
  lemma {:induction false} ExpandFirstPrefix(ps: seq<Period>, n: nat, m: nat)
    requires n <= m <= |ps|
    ensures |ExpandFirst(ps, n)| <= |ExpandFirst(ps, m)|
    ensures ExpandFirst(ps, n) == ExpandFirst(ps, m)[..|ExpandFirst(ps, n)|]
    decreases m - n
  {
    if n < m {
      ExpandFirstPrefix(ps, n + 1, m);
      var a, b := ExpandFirst(ps, n), ExpandFirst(ps, n + 1);
      var c := ExpandFirst(ps, m);
      assert b[..|a|] == a;
      assert c[..|b|][..|a|] == c[..|a|];
    }
  }

  /** The `i`-th month of period `p` carries that period's flow. */
  lemma ExpandAt(ps: seq<Period>, p: nat, i: nat)
    requires p < |ps| && i < ps[p].months
    ensures |ExpandFirst(ps, p)| + i < |Expand(ps)|
    ensures Expand(ps)[|ExpandFirst(ps, p)| + i] == ps[p].flow
  {
    ExpandFirstPrefix(ps, p + 1, |ps|);
    var a, b := ExpandFirst(ps, p), ExpandFirst(ps, p + 1);
    assert b[|a| + i] == ps[p].flow;
  }

  /** The first `|a| + j` periods of `a + b` expand to all of `a` and the first `j` of `b`. */
  lemma {:induction false} ExpandFirstConcat(a: seq<Period>, b: seq<Period>, j: nat)
    requires j <= |b|
    ensures ExpandFirst(a + b, |a| + j) == Expand(a) + ExpandFirst(b, j)
    ensures TotalFirst(a + b, |a| + j) == TotalMonths(a) + TotalFirst(b, j)
  {
    if j == 0 {
      ExpandFirstAgree(a + b, a, |a|);
      TotalFirstAgree(a + b, a, |a|);
    } else {
      ExpandFirstConcat(a, b, j - 1);
      var x, y, z := Expand(a), ExpandFirst(b, j - 1), Repeat(b[j - 1].flow, b[j - 1].months);
      assert x + y + z == x + (y + z);
    }
  }

  /** Expansion distributes over concatenation. */
  lemma ExpandConcat(a: seq<Period>, b: seq<Period>)
    ensures Expand(a + b) == Expand(a) + Expand(b)
    ensures TotalMonths(a + b) == TotalMonths(a) + TotalMonths(b)
  {
    ExpandFirstConcat(a, b, |b|);
  }

  /**
   * The month just before the run of period `n - 1` within the first `n`
   * periods carries a different flow, if there is such a month.
   */
  lemma RunBoundary(ps: seq<Period>, n: nat)
    requires Positive(ps) && Coalesced(ps) && 0 < n <= |ps|
    ensures |ExpandFirst(ps, n)| >= ps[n - 1].months
    ensures n == 1 ==> |ExpandFirst(ps, n)| == ps[0].months
    ensures n > 1 ==> |ExpandFirst(ps, n)| > ps[n - 1].months &&
                      ExpandFirst(ps, n)[|ExpandFirst(ps, n)| - ps[n - 1].months - 1] != ps[n - 1].flow
  {
    ExpandFirstLength(ps, n - 1);
    var a := ExpandFirst(ps, n - 1);
    var e := ExpandFirst(ps, n);
    if n > 1 {
      assert e[|a| - 1] == a[|a| - 1];
    }
  }

  /**
   * Coalesced runs are canonical: first periods of two positive, coalesced
   * lists with the same expansion are the same periods.
   */
  lemma {:induction false} CoalescedUniqueFirst(r1: seq<Period>, r2: seq<Period>, n1: nat, n2: nat)
    requires Positive(r1) && Coalesced(r1) && Positive(r2) && Coalesced(r2)
    requires n1 <= |r1| && n2 <= |r2|
    requires ExpandFirst(r1, n1) == ExpandFirst(r2, n2)
    ensures n1 == n2 && forall k :: 0 <= k < n1 ==> r1[k] == r2[k]
    decreases n1
  {
    ExpandFirstLength(r1, n1);
    ExpandFirstLength(r2, n2);
    if n1 > 0 && n2 > 0 {
      var e := ExpandFirst(r1, n1);
      var p1, p2 := r1[n1 - 1], r2[n2 - 1];
      var a1, a2 := ExpandFirst(r1, n1 - 1), ExpandFirst(r2, n2 - 1);
      assert p1.flow == p2.flow == e[|e| - 1];
      if p1.months < p2.months {
        RunBoundary(r1, n1);
        assert false;
      } else if p2.months < p1.months {
        RunBoundary(r2, n2);
        assert false;
      }
      assert a1 == e[..|e| - p1.months] == a2;
      CoalescedUniqueFirst(r1, r2, n1 - 1, n2 - 1);
    }
  }

  /**
   * Coalesced runs are canonical: two lists of positive, coalesced periods
   * with the same expansion are the same list.
   */
  lemma CoalescedUnique(r1: seq<Period>, r2: seq<Period>)
    requires Positive(r1) && Coalesced(r1) && Positive(r2) && Coalesced(r2)
    requires Expand(r1) == Expand(r2)
    ensures r1 == r2
  {
    CoalescedUniqueFirst(r1, r2, |r1|, |r2|);
  }
}
