/**
 * The block editor's list edits: each turns the current blocks into the
 * list handed to `onChange`. Rendering, events and state hooks are not
 * modelled; each edit takes its inputs as parameters.
 */
module BlocksEditor {
  import opened Wrappers
  import opened JsNumbers
  import opened Periods
  import opened PeriodsBlocks

  /**
   * `xs.map((x, i) => (i === index ? f(x) : x))`: the element at `index`
   * replaced by `f` of it, every other element kept; no change when `index`
   * is not a position of `xs`.
   */
  function UpdateAt<T>(xs: seq<T>, index: int, f: T -> T): (r: seq<T>)
    ensures |r| == |xs|
    ensures forall i :: 0 <= i < |xs| && i != index ==> r[i] == xs[i]
    ensures 0 <= index < |xs| ==> r[index] == f(xs[index])
    ensures !(0 <= index < |xs|) ==> r == xs
  {
    seq(|xs|, i requires 0 <= i < |xs| => if i == index then f(xs[i]) else xs[i])
  }

  /**
   * `xs.filter((_, i) => i !== index)`: every element whose position is not
   * `index`, in order.
   */
  function RemoveAt<T>(xs: seq<T>, index: int): (r: seq<T>)
    ensures 0 <= index < |xs| ==> r == xs[..index] + xs[index + 1..]
    ensures !(0 <= index < |xs|) ==> r == xs
  {
    if xs == [] then []
    else (if index == 0 then [] else [xs[0]]) + RemoveAt(xs[1..], index - 1)
  }

  /** The field of a period an input edits. */
  datatype Field = Months | Flow

  /** `{ ...period, [field]: value }`. */
  function SetField(p: Period, field: Field, value: int): (r: Period)
    ensures field == Months ==> r.months == value && r.flow == p.flow
    ensures field == Flow ==> r.flow == value && r.months == p.months
  {
    match field
    case Months => p.(months := value)
    case Flow => p.(flow := value)
  }

  /**
   * `updatePattern`: sets one field of one period of one block; every other
   * block, every other period and the block's name and repeat count stay.
   */
  function UpdatePattern(blocks: seq<PeriodBlock>, blockIndex: int, patternIndex: int, field: Field, value: int): (r: seq<PeriodBlock>)
    ensures |r| == |blocks|
    ensures forall i :: 0 <= i < |blocks| && i != blockIndex ==> r[i] == blocks[i]
    ensures 0 <= blockIndex < |blocks| ==>
              var b, c := blocks[blockIndex], r[blockIndex];
              c.name == b.name && c.repeatYears == b.repeatYears && |c.pattern| == |b.pattern| &&
              (forall j :: 0 <= j < |b.pattern| && j != patternIndex ==> c.pattern[j] == b.pattern[j]) &&
              (0 <= patternIndex < |b.pattern| ==> c.pattern[patternIndex] == SetField(b.pattern[patternIndex], field, value))
  {
    UpdateAt(blocks, blockIndex, (b: PeriodBlock) =>
      b.(pattern := UpdateAt(b.pattern, patternIndex, (p: Period) => SetField(p, field, value))))
  }

  /** The block `addBlock` appends: unnamed, one year of one twelve-month period with no flow. */
  const NewBlock: PeriodBlock := PeriodBlock([Period(12, 0)], 1, Some(""))

  /** `addBlock`: the blocks followed by the new block. */
  function AddBlock(blocks: seq<PeriodBlock>): (r: seq<PeriodBlock>)
    ensures |r| == |blocks| + 1 && r[..|blocks|] == blocks && r[|blocks|] == NewBlock
  {
    blocks + [NewBlock]
  }

  /** The period `addPattern` appends: one month with no flow. */
  const NewPeriod: Period := Period(1, 0)

  /** `addPattern`: one block's pattern gains the new period at its end; nothing else changes. */
  function AddPattern(blocks: seq<PeriodBlock>, blockIndex: int): (r: seq<PeriodBlock>)
    ensures |r| == |blocks|
    ensures forall i :: 0 <= i < |blocks| && i != blockIndex ==> r[i] == blocks[i]
    ensures 0 <= blockIndex < |blocks| ==> r[blockIndex] == blocks[blockIndex].(pattern := blocks[blockIndex].pattern + [NewPeriod])
  {
    UpdateAt(blocks, blockIndex, (b: PeriodBlock) => b.(pattern := b.pattern + [NewPeriod]))
  }

  /** `removePattern`: one block's pattern loses the period at `patternIndex`; nothing else changes. */
  function RemovePattern(blocks: seq<PeriodBlock>, blockIndex: int, patternIndex: int): (r: seq<PeriodBlock>)
    ensures |r| == |blocks|
    ensures forall i :: 0 <= i < |blocks| && i != blockIndex ==> r[i] == blocks[i]
    ensures 0 <= blockIndex < |blocks| && 0 <= patternIndex < |blocks[blockIndex].pattern| ==>
              var p := blocks[blockIndex].pattern;
              r[blockIndex] == blocks[blockIndex].(pattern := p[..patternIndex] + p[patternIndex + 1..])
  {
    UpdateAt(blocks, blockIndex, (b: PeriodBlock) => b.(pattern := RemoveAt(b.pattern, patternIndex)))
  }

  /**
   * The effect of `next.splice(i, 1)` followed by `next.splice(t, 0, removed)`
   * on a copy of `s`: the element at `i` taken out and put back at `t`.
   */
  function Moved<T>(s: seq<T>, i: nat, t: nat): (r: seq<T>)
    requires i < |s| && t < |s|
  {
    var rest := s[..i] + s[i + 1..];
    rest[..t] + [s[i]] + rest[t..]
  }

  /** Position by position: the moved element at `t`, the ones between shifted by one toward `i`, the rest in place. */
  lemma MovedIndex<T>(s: seq<T>, i: nat, t: nat)
    requires i < |s| && t < |s|
    ensures |Moved(s, i, t)| == |s|
    ensures forall j :: 0 <= j < |s| ==>
              Moved(s, i, t)[j] == (if j == t then s[i]
                                    else if i <= j < t then s[j + 1]
                                    else if t < j <= i then s[j - 1]
                                    else s[j])
  {
    var rest := s[..i] + s[i + 1..];
    assert forall j :: 0 <= j < |rest| ==> rest[j] == if j < i then s[j] else s[j + 1];
  }

  /** Moving an element keeps the same elements, each as often. */
  lemma MovedPermutation<T>(s: seq<T>, i: nat, t: nat)
    requires i < |s| && t < |s|
    ensures multiset(Moved(s, i, t)) == multiset(s)
  {
    var rest := s[..i] + s[i + 1..];
    var x := s[i];
    assert s == s[..i] + [x] + s[i + 1..];
    assert rest == rest[..t] + rest[t..];
    calc {
      multiset(Moved(s, i, t));
      multiset(rest[..t]) + multiset{x} + multiset(rest[t..]);
      multiset(rest) + multiset{x};
      multiset(s[..i]) + multiset(s[i + 1..]) + multiset{x};
      multiset(s[..i]) + multiset{x} + multiset(s[i + 1..]);
      multiset(s);
    }
  }

  /** Moving the element back to where it came from restores the list. */
  lemma MovedBack<T>(s: seq<T>, i: nat, t: nat)
    requires i < |s| && t < |s|
    ensures Moved(Moved(s, i, t), t, i) == s
  {
    var m := Moved(s, i, t);
    MovedIndex(s, i, t);
    var back := Moved(m, t, i);
    MovedIndex(m, t, i);
    forall j | 0 <= j < |s|
      ensures back[j] == s[j]
    {
      MovedAt(m, t, i, j);
      if j == i {
        MovedAt(s, i, t, t);
      } else if t <= j < i {
        MovedAt(s, i, t, j + 1);
      } else if i < j <= t {
        MovedAt(s, i, t, j - 1);
      } else {
        MovedAt(s, i, t, j);
      }
    }
  }

  /** Position `j` after a move, without a quantifier. */
  lemma MovedAt<T>(s: seq<T>, i: nat, t: nat, j: nat)
    requires i < |s| && t < |s| && j < |s|
    ensures |Moved(s, i, t)| == |s|
    ensures Moved(s, i, t)[j] == (if j == t then s[i]
                                  else if i <= j < t then s[j + 1]
                                  else if t < j <= i then s[j - 1]
                                  else s[j])
  {
    MovedIndex(s, i, t);
  }

  /** A move by one position swaps two neighbours. */
  lemma MovedAdjacent<T>(s: seq<T>, i: nat)
    requires i + 1 < |s|
    ensures Moved(s, i, i + 1) == s[i := s[i + 1]][i + 1 := s[i]]
    ensures Moved(s, i + 1, i) == s[i := s[i + 1]][i + 1 := s[i]]
  {
    MovedIndex(s, i, i + 1);
    MovedIndex(s, i + 1, i);
  }

  /**
   * `moveBlock(index, offset)`: no change (and no `onChange`) when
   * `index + offset` is outside the list; otherwise a copy of the list with
   * the block at `index` moved to `index + offset`. The copy is shifted in
   * place between the two positions, which is what the two splices do.
   */
  method MoveBlock(blocks: seq<PeriodBlock>, index: int, offset: int) returns (r: Option<seq<PeriodBlock>>)
    requires 0 <= index < |blocks|
    ensures index + offset < 0 || index + offset >= |blocks| ==> r.None?
    ensures 0 <= index + offset < |blocks| ==> r == Some(Moved(blocks, index, index + offset))
  {
    var target := index + offset;
    if target < 0 || target >= |blocks| {
      return None;
    }
    var next := new PeriodBlock[|blocks|](i requires 0 <= i < |blocks| => blocks[i]);
    assert next[..] == blocks;
    MoveWithin(next, index, target);
    r := Some(next[..]);
  }

  /**
   * Takes out the element at `i` and puts it back at `t`, shifting the
   * elements between the two positions one place toward `i`.
   */
  method MoveWithin<T>(a: array<T>, i: nat, t: nat)
    requires i < a.Length && t < a.Length
    modifies a
    ensures a[..] == Moved(old(a[..]), i, t)
  {
    ghost var s := a[..];
    var removed := a[i];
    if i <= t {
      ShiftDown(a, i, t);
    } else {
      ShiftUp(a, t, i);
    }
    a[t] := removed;
    MovedFromShift(s, a[..], i, t);
  }

  /** A list that agrees with the move position by position is the moved list. */
  lemma MovedFromShift<T>(s: seq<T>, shifted: seq<T>, i: nat, t: nat)
    requires i < |s| && t < |s| && |shifted| == |s|
    requires forall j {:trigger shifted[j]} :: 0 <= j < |s| ==>
               shifted[j] == (if j == t then s[i]
                              else if i <= j < t then s[j + 1]
                              else if t < j <= i then s[j - 1]
                              else s[j])
    ensures shifted == Moved(s, i, t)
  {
    MovedIndex(s, i, t);
    var moved := Moved(s, i, t);
    forall j | 0 <= j < |s|
      ensures shifted[j] == moved[j]
    {
      assert moved[j] == (if j == t then s[i] else if i <= j < t then s[j + 1] else if t < j <= i then s[j - 1] else s[j]);
    }
  }

  /** Moves `a[lo + 1..hi + 1]` one place down to `a[lo..hi]`. */
  method ShiftDown<T>(a: array<T>, lo: nat, hi: nat)
    requires lo <= hi < a.Length
    modifies a
    ensures forall j :: 0 <= j < a.Length ==> a[j] == if lo <= j < hi then old(a[j + 1]) else old(a[j])
  {
    var k := lo;
    while k < hi
      invariant lo <= k <= hi
      invariant forall j :: 0 <= j < a.Length ==> a[j] == if lo <= j < k then old(a[j + 1]) else old(a[j])
    {
      a[k] := a[k + 1];
      k := k + 1;
    }
  }

  /** Moves `a[lo..hi]` one place up to `a[lo + 1..hi + 1]`. */
  method ShiftUp<T>(a: array<T>, lo: nat, hi: nat)
    requires lo <= hi < a.Length
    modifies a
    ensures forall j :: 0 <= j < a.Length ==> a[j] == if lo < j <= hi then old(a[j - 1]) else old(a[j])
  {
    var k := hi;
    while k > lo
      invariant lo <= k <= hi
      invariant forall j :: 0 <= j < a.Length ==> a[j] == if k < j <= hi then old(a[j - 1]) else old(a[j])
    {
      a[k] := a[k - 1];
      k := k - 1;
    }
  }

  /**
   * `Math.max(1, Number(text) || 1)`, the repeat-count and months inputs:
   * at least one; the entered number when it is at least one, one when it
   * is empty, zero, below one or not a number.
   */
  function AtLeastOneInput(text: string): (r: JsNum)
    ensures r.PosInf? || (r.Finite? && r.value >= 1.0)
    ensures Number(text).Finite? && Number(text).value >= 1.0 ==> r == Number(text)
    ensures (Number(text).Finite? && Number(text).value < 1.0) || Number(text).NaN? || Number(text).NegInf? ==> r == Finite(1.0)
  {
    var n := Number(text);
    var entered := if n == Finite(0.0) || n.NaN? then Finite(1.0) else n;
    match entered
    case Finite(v) => Finite(if v >= 1.0 then v else 1.0)
    case NegInf => Finite(1.0)
    case _ => entered
  }

  /**
   * `Math.trunc(Number(text) || 0)`, the flow input: the entered number
   * rounded toward zero, zero when it is empty or not a number.
   */
  function FlowInput(text: string): (r: JsNum)
    ensures Number(text).NaN? ==> r == Finite(0.0)
    ensures Number(text).Finite? ==> r == Finite(Trunc(Number(text).value) as real)
    ensures Number(text).PosInf? || Number(text).NegInf? ==> r == Number(text)
  {
    var n := Number(text);
    match n
    case Finite(v) => if v == 0.0 then Finite(0.0) else Finite(Trunc(v) as real)
    case NaN => Finite(0.0)
    case _ => n
  }

  /** Appending the new block keeps every block replayable. */
  lemma AddBlockKeepsReplayable(blocks: seq<PeriodBlock>)
    requires AllReplayable(blocks)
    ensures AllReplayable(AddBlock(blocks))
  {
    var r := AddBlock(blocks);
    assert r[|blocks|] == NewBlock;
  }

  /** Appending the new period to a block's pattern keeps every block replayable. */
  lemma AddPatternKeepsReplayable(blocks: seq<PeriodBlock>, blockIndex: int)
    requires AllReplayable(blocks)
    ensures AllReplayable(AddPattern(blocks, blockIndex))
  {
    if 0 <= blockIndex < |blocks| {
      var b := blocks[blockIndex];
      var a := AddPattern(blocks, blockIndex)[blockIndex];
      assert a.pattern == b.pattern + [NewPeriod];
      if b.repeatYears > 0 {
        forall j | 0 <= j < |a.pattern|
          ensures a.pattern[j].months > 0
        {
          if j < |b.pattern| {
            assert a.pattern[j] == b.pattern[j];
          }
        }
      }
    }
  }

  /** Setting a flow, or a month count the input has clamped to one or more, keeps every block replayable. */
  lemma UpdatePatternKeepsReplayable(blocks: seq<PeriodBlock>, blockIndex: int, patternIndex: int, field: Field, value: int)
    requires AllReplayable(blocks)
    requires field == Months ==> value >= 1
    ensures AllReplayable(UpdatePattern(blocks, blockIndex, patternIndex, field, value))
  {
    if 0 <= blockIndex < |blocks| {
      var b := blocks[blockIndex];
      var c := UpdatePattern(blocks, blockIndex, patternIndex, field, value)[blockIndex];
      if b.repeatYears > 0 {
        forall j | 0 <= j < |c.pattern|
          ensures c.pattern[j].months > 0
        {
          if j != patternIndex {
            assert c.pattern[j] == b.pattern[j];
          }
        }
      }
    }
  }

  /** Removing a block keeps every remaining block replayable. */
  lemma RemoveBlockKeepsReplayable(blocks: seq<PeriodBlock>, blockIndex: int)
    requires AllReplayable(blocks)
    ensures AllReplayable(RemoveAt(blocks, blockIndex))
  {
    var removed := RemoveAt(blocks, blockIndex);
    if 0 <= blockIndex < |blocks| {
      assert forall j :: 0 <= j < |removed| ==> removed[j] == if j < blockIndex then blocks[j] else blocks[j + 1];
    }
  }

  /** Moving a block keeps every block replayable. */
  lemma MoveKeepsReplayable(blocks: seq<PeriodBlock>, index: nat, target: nat)
    requires AllReplayable(blocks) && index < |blocks| && target < |blocks|
    ensures AllReplayable(Moved(blocks, index, target))
  {
    MovedIndex(blocks, index, target);
  }

  /**
   * Removing the only period of a repeated block leaves it with an empty
   * pattern, which cannot be replayed: only the disabled button keeps the
   * editor from doing this.
   */
  lemma RemoveLastPeriod(b: PeriodBlock)
    requires |b.pattern| == 1 && b.repeatYears >= 1
    ensures RemovePattern([b], 0, 0) == [b.(pattern := [])]
    ensures !Replayable(RemovePattern([b], 0, 0)[0])
  {
    assert RemovePattern([b], 0, 0)[0] == b.(pattern := []);
  }

  /** Removing the block just added gives back the blocks. */
  lemma AddBlockRemoveAt(blocks: seq<PeriodBlock>)
    ensures RemoveAt(AddBlock(blocks), |blocks|) == blocks
  {
    assert AddBlock(blocks)[..|blocks|] == blocks;
  }

  /** Removing the period just added gives back the blocks. */
  lemma AddPatternRemovePattern(blocks: seq<PeriodBlock>, blockIndex: int)
    requires 0 <= blockIndex < |blocks|
    ensures RemovePattern(AddPattern(blocks, blockIndex), blockIndex, |blocks[blockIndex].pattern|) == blocks
  {
    var b := blocks[blockIndex];
    var added := AddPattern(blocks, blockIndex);
    var p := added[blockIndex].pattern;
    assert p[..|b.pattern|] + p[|b.pattern| + 1..] == b.pattern;
    var r := RemovePattern(added, blockIndex, |b.pattern|);
    assert r[blockIndex] == b;
    assert forall i :: 0 <= i < |blocks| ==> r[i] == blocks[i];
  }
}
