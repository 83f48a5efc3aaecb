/**
 * column/range.go: the older range selector, a function from the fields of
 * a line to the selected fields. Bounds are normalised against
 * `max = len - 1` and the walked indices read the slice 0-based.
 */
module LegacyRange {
  import opened Wrappers
  import opened Fields
  import opened GoStrconv

  datatype RangeSelector = RangeSelector(start: int, step: int, stop: int, isInfStop: bool)

  const IndexOutOfRange: string := "index out of range"

  /** The start bound: a negative value counts back from `max`. */
  function NormStart(start: int, max: int): int
  {
    if start < 0 then max + start + 1 else start
  }

  /** The stop bound: `max` when unbounded or too large, a negative value counted back from `max`. */
  function NormStop(stop: int, isInfStop: bool, max: int): (b: int)
    ensures b <= max
  {
    var s := if isInfStop || stop >= max then max else stop;
    if s < 0 then max + s + 1 else s
  }

  function StepBiggerError(a: int, step: int, b: int): string
  {
    "step must be bigger than 0(start:step:stop=" + Itoa(a) + ":" + Itoa(step) + ":" + Itoa(b) + ")"
  }

  function StepLessError(a: int, step: int, b: int): string
  {
    "step must be less than 0(start:step:stop=" + Itoa(a) + ":" + Itoa(step) + ":" + Itoa(b) + ")"
  }

  /** The fields at the given 0-based positions, in order. */
  function Picked(row: seq<string>, idxs: seq<int>): (r: seq<string>)
    requires AllIn(idxs, 0, |row| - 1)
    ensures |r| == |idxs| && forall k :: 0 <= k < |idxs| ==> r[k] == row[idxs[k]]
  {
    seq(|idxs|, k requires 0 <= k < |idxs| => row[idxs[k]])
  }

  /**
   * The selections that neither read outside the slice nor loop forever:
   * a walked range needs a non-zero step and every position it visits
   * within 0..max (the bound itself may lie outside when the walk stops
   * short of it). A
   * single index must satisfy what its read needs, which differs between
   * the code as written (`strings[start-1]`) and the corrected read.
   */
  predicate WalkSafe(r: RangeSelector, len: nat)
  {
    var max := len - 1;
    var a, b := NormStart(r.start, max), NormStop(r.stop, r.isInfStop, max);
    (a != b ==> r.step != 0) &&
    (a < b && r.step > 0 ==> AllIn(Progression(a, r.step, b), 0, max)) &&
    (a > b && r.step < 0 ==> AllIn(Progression(a, r.step, b), 0, max))
  }

  predicate SafeAsWritten(r: RangeSelector, len: nat)
  {
    var a := NormStart(r.start, len - 1);
    WalkSafe(r, len) && (a == NormStop(r.stop, r.isInfStop, len - 1) ==> a >= 1)
  }

  predicate Safe(r: RangeSelector, len: nat)
  {
    var a := NormStart(r.start, len - 1);
    WalkSafe(r, len) && (a == NormStop(r.stop, r.isInfStop, len - 1) ==> a >= 0)
  }

  /** The fields of a walked range, or the step-direction error. */
  function Walk(r: RangeSelector, row: seq<string>): (res: Result<seq<string>>)
    requires WalkSafe(r, |row|)
    requires NormStart(r.start, |row| - 1) != NormStop(r.stop, r.isInfStop, |row| - 1)
  {
    var max := |row| - 1;
    var a, b := NormStart(r.start, max), NormStop(r.stop, r.isInfStop, max);
    if a < b then
      if r.step < 0 then Err(StepBiggerError(a, r.step, b))
      else
        Ok(Picked(row, Progression(a, r.step, b)))
    else
      if r.step > 0 then Err(StepLessError(a, r.step, b))
      else
        Ok(Picked(row, Progression(a, r.step, b)))
  }

  /**
   * Select as written: a single index reads `strings[start-1]` although
   * the walked ranges read `strings[i]`.
   */
  function ColumnsAsWritten(r: RangeSelector, row: seq<string>): Result<seq<string>>
    requires SafeAsWritten(r, |row|)
  {
    var max := |row| - 1;
    var a, b := NormStart(r.start, max), NormStop(r.stop, r.isInfStop, max);
    if a == b then
      if a > max then Err(IndexOutOfRange) else Ok([row[a - 1]])
    else Walk(r, row)
  }

  /** Select with the single index read 0-based like the walked ranges. */
  function Columns(r: RangeSelector, row: seq<string>): Result<seq<string>>
    requires Safe(r, |row|)
  {
    var max := |row| - 1;
    var a, b := NormStart(r.start, max), NormStop(r.stop, r.isInfStop, max);
    if a == b then
      if a > max then Err(IndexOutOfRange) else Ok([row[a]])
    else Walk(r, row)
  }

  /** Picked over one more visited position. */
  lemma {:induction false} PickedCons(row: seq<string>, i: int, rest: seq<int>)
    requires 0 <= i < |row| && AllIn(rest, 0, |row| - 1)
    ensures AllIn([i] + rest, 0, |row| - 1)
    ensures Picked(row, [i] + rest) == [row[i]] + Picked(row, rest)
  {
    AllInCons(i, rest, 0, |row| - 1);
    assert forall k :: 1 <= k < |rest| + 1 ==> ([i] + rest)[k] == rest[k - 1];
  }

  /** The walk loop of either direction: append `strings[i]` for every visited `i`. */
  method WalkLoop(row: seq<string>, start: int, step: int, stop: int) returns (rt: seq<string>)
    requires step != 0 && AllIn(Progression(start, step, stop), 0, |row| - 1)
    ensures rt == Picked(row, Progression(start, step, stop))
  {
    rt := [];
    var i := start;
    while Within(i, step, stop)
      invariant AllIn(Progression(i, step, stop), 0, |row| - 1)
      invariant rt + Picked(row, Progression(i, step, stop)) == Picked(row, Progression(start, step, stop))
      decreases if step > 0 then stop - i + step else i - stop - step
    {
      var next := i + step;
      WalkStep(row, i, next, step, stop);
      rt := rt + [row[i]];
      i := next;
    }
    ProgressionStep(i, step, stop);
  }

  /** One visited position: it lies in the row, and its field comes before the rest of the walk. */
  lemma {:induction false} WalkStep(row: seq<string>, i: int, next: int, step: int, stop: int)
    requires step != 0 && next == i + step
    requires Within(i, step, stop) && AllIn(Progression(i, step, stop), 0, |row| - 1)
    ensures 0 <= i < |row| && AllIn(Progression(next, step, stop), 0, |row| - 1)
    ensures Picked(row, Progression(i, step, stop)) == [row[i]] + Picked(row, Progression(next, step, stop))
  {
    ProgressionStep(i, step, stop);
    var todo, rest := Progression(i, step, stop), Progression(i + step, step, stop);
    assert todo[0] == i;
    assert AllIn(rest, 0, |row| - 1) by {
      assert forall k :: 0 <= k < |rest| ==> rest[k] == todo[k + 1];
    }
    PickedCons(row, i, rest);
  }

  /** Select, as the code is written. */
  method SelectColumns(r: RangeSelector, strings: seq<string>) returns (res: Result<seq<string>>)
    requires SafeAsWritten(r, |strings|)
    ensures res == ColumnsAsWritten(r, strings)
  {
    var max := |strings| - 1;
    var start := r.start;
    if start < 0 {
      start := max + start + 1;
    }
    var stop := r.stop;
    if r.isInfStop || stop >= max {
      stop := max;
    }
    if stop < 0 {
      stop := max + stop + 1;
    }
    var step := r.step;
    assert start == NormStart(r.start, max) && stop == NormStop(r.stop, r.isInfStop, max);
    if start == stop {
      if start > max {
        return Err(IndexOutOfRange);
      }
      return Ok([strings[start - 1]]);
    } else if start < stop {
      if step < 0 {
        return Err(StepBiggerError(start, step, stop));
      }
      var rt := WalkLoop(strings, start, step, stop);
      return Ok(rt);
    } else {
      if step > 0 {
        return Err(StepLessError(start, step, stop));
      }
      var rt := WalkLoop(strings, start, step, stop);
      return Ok(rt);
    }
  }

  /**
   * As written, `1:1` on the fields l, a, b selects l, while `1:2`
   * selects a and b: the single index is one position behind the ranges.
   */
  lemma {:induction false} SingleIndexLagsAsWritten()
    ensures SafeAsWritten(RangeSelector(1, 1, 1, false), 3) && SafeAsWritten(RangeSelector(1, 1, 2, false), 3)
    ensures ColumnsAsWritten(RangeSelector(1, 1, 1, false), ["l", "a", "b"]) == Ok(["l"])
    ensures ColumnsAsWritten(RangeSelector(1, 1, 2, false), ["l", "a", "b"]) == Ok(["a", "b"])
  {
    ProgressionStep(1, 1, 2);
    ProgressionStep(2, 1, 2);
    ProgressionStep(3, 1, 2);
    assert Progression(1, 1, 2) == [1, 2];
    var row := ["l", "a", "b"];
    assert Picked(row, [1, 2]) == ["a", "b"];
  }

  /**
   * A descending walk whose bound lies before the first field stops at
   * the first position past the bound: on four fields `3:-5:-5` visits
   * position 3 only.
   */
  lemma {:induction false} FarStopDescending(row: seq<string>)
    requires |row| == 4
    ensures SafeAsWritten(RangeSelector(3, -5, -5, false), |row|)
    ensures ColumnsAsWritten(RangeSelector(3, -5, -5, false), row) == Ok([row[3]])
  {
    ProgressionStep(3, -5, -1);
    ProgressionStep(-2, -5, -1);
    assert Progression(3, -5, -1) == [3];
    assert NormStart(3, 3) == 3 && NormStop(-5, false, 3) == -1;
    assert Picked(row, [3]) == [row[3]];
  }

  /** Corrected, the single index k selects the field the range k:k+1 starts with. */
  lemma {:induction false} SingleIndexStartsRange(row: seq<string>, k: int)
    requires 0 <= k && k + 1 < |row|
    ensures Safe(RangeSelector(k, 1, k, false), |row|) && Safe(RangeSelector(k, 1, k + 1, false), |row|)
    ensures Columns(RangeSelector(k, 1, k, false), row) == Ok([row[k]])
    ensures Columns(RangeSelector(k, 1, k + 1, false), row) == Ok([row[k], row[k + 1]])
  {
    ProgressionStep(k, 1, k + 1);
    ProgressionStep(k + 1, 1, k + 1);
    ProgressionStep(k + 2, 1, k + 1);
    assert Progression(k, 1, k + 1) == [k, k + 1];
    assert Picked(row, [k, k + 1]) == [row[k], row[k + 1]];
  }

  /** An unbounded range from 0 selects the whole slice. */
  lemma {:induction false} WholeSlice(row: seq<string>)
    requires |row| >= 2
    ensures Safe(RangeSelector(0, 1, 0, true), |row|)
    ensures Columns(RangeSelector(0, 1, 0, true), row) == Ok(row)
  {
    var max := |row| - 1;
    ProgressionBounds(0, 1, max);
    var p := Progression(0, 1, max);
    CountUp(max);
    assert Picked(row, p) == row;
  }

  /** Counting up from 0 by 1 to `max` visits every position once, in order. */
  lemma {:induction false} CountUp(max: nat)
    ensures var p := Progression(0, 1, max);
      |p| == max + 1 && forall k :: 0 <= k < |p| ==> p[k] == k
  {
    AscendValues(0, 1, max);
    AscendComplete(0, 1, max);
    var p := Progression(0, 1, max);
    assert p[|p| - 1] == |p| - 1;
    assert |p| * 1 == |p|;
  }
}
