/**
 * internal/column/range.go: the range selector `start:step:stop` over the
 * 1-based fields of a line. Negative bounds count from the end, an
 * unbounded or too large stop is the last field, and index 0 stands for
 * the whole line.
 */
module InternalRange {
  import opened Wrappers
  import opened Fields
  import opened GoStrconv
  import InternalIterator
  import InternalOutput

  datatype RangeSelector = RangeSelector(start: int, step: int, stop: int, isInfStop: bool)

  const IndexOutOfRange: string := "index out of range"

  /** The start bound with a negative value counted from the end. */
  function NormStart(start: int, m: int): int
  {
    if start < 0 then m + start + 1 else start
  }

  /** The stop bound: the last field when unbounded or too large, a negative value counted from the end. */
  function NormStop(stop: int, isInfStop: bool, m: int): int
  {
    var s := if isInfStop || stop >= m then m else stop;
    if s < 0 then m + s + 1 else s
  }

  function Quad(a: int, step: int, b: int): string
  {
    "(start:step:stop=" + Itoa(a) + ":" + Itoa(step) + ":" + Itoa(b) + ")"
  }

  function StepBiggerError(a: int, step: int, b: int): string
  {
    "step must be bigger than 0" + Quad(a, step, b)
  }

  function StepLessError(a: int, step: int, b: int): string
  {
    "step must be less than 0" + Quad(a, step, b)
  }

  /**
   * The selections Select can make without indexing outside the row or
   * looping forever: a single index must be at least 1, and a range that
   * is walked needs a non-zero step and every index it visits within 0..m
   * (the bound itself may lie outside when the walk never reaches it).
   */
  predicate Safe(r: RangeSelector, m: nat)
  {
    var a, b := NormStart(r.start, m), NormStop(r.stop, r.isInfStop, m);
    (a == b ==> a >= 1) &&
    (a != b ==> r.step != 0) &&
    (a < b && r.step > 0 ==> AllIn(Progression(a, r.step, b), 0, m)) &&
    (a > b && r.step < 0 ==> AllIn(Progression(a, r.step, b), 0, m))
  }

  /** The normalised stop never passes the last field. */
  lemma {:induction false} NormStopAtMost(stop: int, isInfStop: bool, m: nat)
    ensures NormStop(stop, isInfStop, m) <= m
    ensures isInfStop ==> NormStop(stop, isInfStop, m) == m
    ensures stop < 0 && stop + m >= 0 ==> 1 <= NormStop(stop, isInfStop, m) <= m
  {
  }

  /**
   * What Select writes: one field for a single index (an error past the
   * end), else the fields of the walked range with index 0 spliced in as
   * the whole row; a step against the direction of the range is an error.
   */
  function Columns(r: RangeSelector, row: seq<string>): Result<seq<string>>
    requires Safe(r, |row|)
  {
    var m := |row|;
    var a, b := NormStart(r.start, m), NormStop(r.stop, r.isInfStop, m);
    NormStopAtMost(r.stop, r.isInfStop, m);
    if a == b then
      if a > m then Err(IndexOutOfRange) else Ok([row[a - 1]])
    else if a < b then
      if r.step < 0 then Err(StepBiggerError(a, r.step, b))
      else
        Ok(Expand(row, Progression(a, r.step, b)))
    else
      if r.step > 0 then Err(StepLessError(a, r.step, b))
      else
        Ok(Expand(row, Progression(a, r.step, b)))
  }

  /** Expand over one more visited index. */
  lemma {:induction false} ExpandStep(row: seq<string>, i: int, rest: seq<int>)
    requires 0 <= i <= |row| && AllIn(rest, 0, |row|)
    ensures AllIn([i] + rest, 0, |row|)
    ensures Expand(row, [i] + rest) == (if i == 0 then row else [row[i - 1]]) + Expand(row, rest)
    ensures ExpandCount(|row|, [i] + rest) == (if i == 0 then |row| else 1) + ExpandCount(|row|, rest)
  {
    AllInCons(i, rest, 0, |row|);
    assert ([i] + rest)[1..] == rest;
  }

  /** The counting loop: how many slots the walked range fills. */
  method CountSlots(m: nat, start: int, step: int, stop: int) returns (l: nat)
    requires step != 0
    ensures l == ExpandCount(m, Progression(start, step, stop))
  {
    l := 0;
    var i := start;
    while Within(i, step, stop)
      invariant l + ExpandCount(m, Progression(i, step, stop)) == ExpandCount(m, Progression(start, step, stop))
      decreases if step > 0 then stop - i + step else i - stop - step
    {
      ProgressionStep(i, step, stop);
      assert ([i] + Progression(i + step, step, stop))[1..] == Progression(i + step, step, stop);
      if i == 0 {
        l := l + m;
      } else {
        l := l + 1;
      }
      i := i + step;
    }
    ProgressionStep(i, step, stop);
  }

  /** The fill loop's whole-row case: copy the row into `rt` from `idx` on. */
  method CopyRow(rt: array<string>, idx: nat, row: seq<string>)
    requires idx + |row| <= rt.Length
    modifies rt
    ensures rt[..idx + |row|] == old(rt[..idx]) + row
  {
    var j := 0;
    while j < |row|
      invariant 0 <= j <= |row|
      invariant rt[..idx + j] == old(rt[..idx]) + row[..j]
    {
      rt[idx + j] := row[j];
      assert rt[..idx + j + 1] == rt[..idx + j] + [row[j]];
      assert row[..j + 1] == row[..j] + [row[j]];
      j := j + 1;
    }
    assert row[..j] == row;
  }

  /** The indices left after visiting `i` are the progression from the next index. */
  lemma {:induction false} TodoTail(i: int, step: int, stop: int)
    requires step != 0 && Within(i, step, stop)
    ensures var t := Progression(i, step, stop);
      t != [] && t[0] == i && t[1..] == Progression(i + step, step, stop)
  {
    ProgressionStep(i, step, stop);
    var rest := Progression(i + step, step, stop);
    assert ([i] + rest)[1..] == rest;
  }

  /** Expand and ExpandCount over the first remaining index. */
  lemma {:induction false} ExpandHead(row: seq<string>, todo: seq<int>)
    requires todo != [] && AllIn(todo, 0, |row|)
    ensures 0 <= todo[0] <= |row| && AllIn(todo[1..], 0, |row|)
    ensures Expand(row, todo) == (if todo[0] == 0 then row else [row[todo[0] - 1]]) + Expand(row, todo[1..])
    ensures ExpandCount(|row|, todo) == (if todo[0] == 0 then |row| else 1) + ExpandCount(|row|, todo[1..])
  {
    assert forall k :: 1 <= k < |todo| ==> todo[1..][k - 1] == todo[k];
  }

  /** One step of the fill loop: the whole row for index 0, else field `i`. */
  method FillOne(rt: array<string>, idx: nat, row: seq<string>, i: int) returns (next: nat)
    requires 0 <= i <= |row| && idx + (if i == 0 then |row| else 1) <= rt.Length
    modifies rt
    ensures next == idx + (if i == 0 then |row| else 1)
    ensures rt[..next] == old(rt[..idx]) + (if i == 0 then row else [row[i - 1]])
  {
    if i == 0 {
      CopyRow(rt, idx, row);
      next := idx + |row|;
    } else {
      rt[idx] := row[i - 1];
      assert rt[..idx + 1] == rt[..idx] + [row[i - 1]];
      next := idx + 1;
    }
  }

  /** One turn of the fill loop, with what the loop keeps about the slots written so far. */
  method FillTurn(a: array<string>, idx: nat, row: seq<string>, i: int, step: int, stop: int,
                  ghost todo: seq<int>, ghost done: seq<string>, ghost all: seq<string>)
    returns (next: nat, ghost done2: seq<string>)
    requires step != 0 && Within(i, step, stop)
    requires todo == Progression(i, step, stop) && AllIn(todo, 0, |row|)
    requires idx == |done| && idx + ExpandCount(|row|, todo) == a.Length
    requires a[..idx] == done && done + Expand(row, todo) == all
    modifies a
    ensures todo[1..] == Progression(i + step, step, stop) && AllIn(todo[1..], 0, |row|)
    ensures next == |done2| && next + ExpandCount(|row|, todo[1..]) == a.Length
    ensures a[..next] == done2 && done2 + Expand(row, todo[1..]) == all
  {
    TodoTail(i, step, stop);
    ExpandHead(row, todo);
    var piece := if i == 0 then row else [row[i - 1]];
    var rest := todo[1..];
    assert done + (piece + Expand(row, rest)) == all;
    assert (done + piece) + Expand(row, rest) == all;
    next := FillOne(a, idx, row, i);
    done2 := done + piece;
  }

  /** The fill loop: write the walked fields into a fresh slice of exactly `l` slots. */
  method FillSlots(row: seq<string>, start: int, step: int, stop: int, l: nat) returns (rt: seq<string>)
    requires step != 0 && AllIn(Progression(start, step, stop), 0, |row|)
    requires l == ExpandCount(|row|, Progression(start, step, stop))
    ensures rt == Expand(row, Progression(start, step, stop))
  {
    var a := new string[l];
    var idx := 0;
    var i := start;
    ghost var all := Expand(row, Progression(start, step, stop));
    ghost var todo := Progression(start, step, stop);
    ghost var done: seq<string> := [];
    while Within(i, step, stop)
      invariant todo == Progression(i, step, stop)
      invariant AllIn(todo, 0, |row|)
      invariant idx == |done| && idx + ExpandCount(|row|, todo) == l
      invariant a[..idx] == done
      invariant done + Expand(row, todo) == all
      decreases if step > 0 then stop - i + step else i - stop - step
    {
      idx, done := FillTurn(a, idx, row, i, step, stop, todo, done, all);
      i := i + step;
      todo := todo[1..];
    }
    ProgressionStep(i, step, stop);
    assert a[..] == a[..idx];
    rt := a[..];
  }

  /** The selection itself, on the row ToArray returned. */
  method SelectColumns(r: RangeSelector, row: seq<string>) returns (res: Result<seq<string>>)
    requires Safe(r, |row|)
    ensures res == Columns(r, row)
  {
    var m := |row|;
    var start := r.start;
    if start < 0 {
      start := m + start + 1;
    }
    var stop := r.stop;
    if r.isInfStop || stop >= m {
      stop := m;
    }
    if stop < 0 {
      stop := m + stop + 1;
    }
    var step := r.step;
    assert start == NormStart(r.start, m) && stop == NormStop(r.stop, r.isInfStop, m);
    NormStopAtMost(r.stop, r.isInfStop, m);
    if start == stop {
      if start > m {
        return Err(IndexOutOfRange);
      }
      return Ok([row[start - 1]]);
    } else if start < stop {
      if step < 0 {
        return Err(StepBiggerError(start, step, stop));
      }
      var l := CountSlots(m, start, step, stop);
      var rt := FillSlots(row, start, step, stop, l);
      return Ok(rt);
    } else {
      if step > 0 {
        return Err(StepLessError(start, step, stop));
      }
      var l := CountSlots(m, start, step, stop);
      var rt := FillSlots(row, start, step, stop, l);
      return Ok(rt);
    }
  }

  /**
   * Select: take the whole row from the iterator and write the selection;
   * an error is returned and nothing is written.
   */
  method Select(r: RangeSelector, w: InternalOutput.Writer, it: InternalIterator.Iterator) returns (err: Option<string>)
    requires it.Valid() && w.Valid()
    requires it.cache.None? ==> Safe(r, |it.View()|)
    requires it.cache.Some? ==> Safe(r, |it.cache.value|)
    modifies w, it
    ensures it.Valid() && w.Valid()
    ensures var row := if old(it.cache).Some? then old(it.cache).value else old(it.View());
      match Columns(r, row)
      case Err(msg) => err == Some(msg) && w.Pending() == old(w.Pending()) && w.buf == old(w.buf)
      case Ok(cols) => err == None && w.Pending() == old(w.Pending()) + cols
  {
    var row := it.ToArray();
    var res := SelectColumns(r, row);
    match res
    case Err(msg) =>
      return Some(msg);
    case Ok(cols) =>
      w.Write(cols);
      return None;
  }

  /** An unbounded range from 1 selects the whole row. */
  lemma {:induction false} WholeRow(row: seq<string>, stop: int)
    requires |row| >= 1
    ensures Safe(RangeSelector(1, 1, stop, true), |row|)
    ensures Columns(RangeSelector(1, 1, stop, true), row) == Ok(row)
  {
    var m := |row|;
    if m > 1 {
      ExpandAll(row, 1);
      assert row[0..] == row;
    } else {
      assert row == [row[0]];
    }
  }

  /** Walking down from m to 1 reverses the row. */
  lemma {:induction false} ExpandDescending(row: seq<string>, i: int)
    requires 0 <= i <= |row|
    ensures AllIn(Descend(i, -1, 1), 0, |row|)
    ensures Expand(row, Descend(i, -1, 1)) == Reverse(row[..i])
    decreases i
  {
    if i >= 1 {
      var rest := Descend(i - 1, -1, 1);
      ExpandDescending(row, i - 1);
      ExpandStep(row, i, rest);
      var r := Reverse(row[..i]);
      var t := [row[i - 1]] + Reverse(row[..i - 1]);
      forall k | 0 <= k < i
        ensures r[k] == t[k]
      {
        if k > 0 {
          assert t[k] == Reverse(row[..i - 1])[k - 1];
        }
      }
      assert r == t;
    }
  }

  /** The range -1:-1:1 writes the row backwards. */
  lemma {:induction false} Backwards(row: seq<string>)
    requires |row| >= 2
    ensures Safe(RangeSelector(-1, -1, 1, false), |row|)
    ensures Columns(RangeSelector(-1, -1, 1, false), row) == Ok(Reverse(row))
  {
    ExpandDescending(row, |row|);
    assert row[..|row|] == row;
  }

  /**
   * A descending walk whose bound lies before the first field stops at
   * the first index past the bound: on three fields `3:-5:-5` selects
   * the third field only.
   */
  lemma {:induction false} FarStopDescending(row: seq<string>)
    requires |row| == 3
    ensures Safe(RangeSelector(3, -5, -5, false), |row|)
    ensures Columns(RangeSelector(3, -5, -5, false), row) == Ok([row[2]])
  {
    ProgressionStep(3, -5, -1);
    ProgressionStep(-2, -5, -1);
    assert Progression(3, -5, -1) == [3];
    assert NormStart(3, 3) == 3 && NormStop(-5, false, 3) == -1;
    assert [3][1..] == [];
    assert Expand(row, []) == [];
    assert Expand(row, [3]) == [row[2]] + Expand(row, []) == [row[2]];
    assert Columns(RangeSelector(3, -5, -5, false), row) == Ok(Expand(row, Progression(3, -5, -1)));
  }

  /** Every field of a successful selection is taken from the row. */
  lemma {:induction false} ColumnsFromRow(r: RangeSelector, row: seq<string>)
    requires Safe(r, |row|) && Columns(r, row).Ok?
    ensures forall x :: x in Columns(r, row).value ==> x in row
  {
    var m := |row|;
    var a, b := NormStart(r.start, m), NormStop(r.stop, r.isInfStop, m);
    NormStopAtMost(r.stop, r.isInfStop, m);
    if a != b {
      ExpandFromRow(row, Progression(a, r.step, b));
    }
  }
}
