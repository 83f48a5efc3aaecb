/**
 * paser/paser.go: the oldest query grammar. A query is `a`, `a:b` or
 * `a:b:c` in decimal digits only, read as `start`, `start:stop` and
 * `start:step:stop`; each is enumerated into column numbers and the
 * enumerations are concatenated in query order. Column 0 stands for the
 * whole line and column k for the k-th field.
 */
module Paser {
  import opened Wrappers
  import opened GoStrings
  import opened GoStrconv
  import opened Fields

  datatype ParseResult = ParseResult(selectedColumns: seq<int>)

  const StepError: string := "step must be greater than zero"
  const NegativeError: string := "column number must be greater equal zero"

  function OutOfRange(idx: int, l: int): string
  {
    "index out of range: selected=" + Itoa(idx) + ", length=" + Itoa(l)
  }

  function InvalidQuery(v: string): string
  {
    v + " is invalid query"
  }

  /**
   * The columns enumerate returns: stepping down from start while at least
   * stop, stepping up while at most stop, or start alone.
   */
  function Enumeration(start: int, step: int, stop: int): Result<seq<int>>
  {
    if step <= 0 then Err(StepError)
    else if start < 0 || stop < 0 then Err(NegativeError)
    else if stop < start then Ok(Descend(start, -step, stop))
    else if start < stop then Ok(Ascend(start, step, stop))
    else Ok([start])
  }

  /** enumerate. */
  method Enumerate(start: int, step: int, stop: int) returns (r: Result<seq<int>>)
    ensures r == Enumeration(start, step, stop)
  {
    if step <= 0 {
      return Err(StepError);
    }
    if start < 0 || stop < 0 {
      return Err(NegativeError);
    }
    var rt := [];
    if stop < start {
      var i := start;
      while i >= stop
        invariant rt + Descend(i, -step, stop) == Descend(start, -step, stop)
        decreases i - stop + step
      {
        assert Descend(i, -step, stop) == [i] + Descend(i - step, -step, stop);
        rt := rt + [i];
        i := i - step;
      }
      assert rt == rt + Descend(i, -step, stop);
      assert rt == Descend(start, -step, stop);
    } else if start < stop {
      var i := start;
      while i <= stop
        invariant rt + Ascend(i, step, stop) == Ascend(start, step, stop)
        decreases stop - i + step
      {
        assert Ascend(i, step, stop) == [i] + Ascend(i + step, step, stop);
        rt := rt + [i];
        i := i + step;
      }
      assert rt == rt + Ascend(i, step, stop);
      assert rt == Ascend(start, step, stop);
    } else {
      rt := rt + [start];
      assert rt == [start];
    }
    return Ok(rt);
  }

  /**
   * What enumerate promises: it fails exactly for a non-positive step or a
   * negative bound; otherwise it starts at start, moves by step towards
   * stop, never passes stop, and stops only once the next step would.
   */
  lemma {:induction false} EnumerationSpec(start: int, step: int, stop: int)
    ensures Enumeration(start, step, stop).Ok? <==> step > 0 && start >= 0 && stop >= 0
    ensures step <= 0 ==> Enumeration(start, step, stop) == Err(StepError)
    ensures step > 0 && (start < 0 || stop < 0) ==> Enumeration(start, step, stop) == Err(NegativeError)
    ensures Enumeration(start, step, stop).Ok? && start <= stop ==>
      var r := Enumeration(start, step, stop).value;
      |r| > 0 && start + |r| * step > stop &&
      forall k :: 0 <= k < |r| ==> r[k] == start + k * step && r[k] <= stop
    ensures Enumeration(start, step, stop).Ok? && stop < start ==>
      var r := Enumeration(start, step, stop).value;
      |r| > 0 && start - |r| * step < stop &&
      forall k :: 0 <= k < |r| ==> r[k] == start - k * step && r[k] >= stop
  {
    if step > 0 && start >= 0 && stop >= 0 {
      if stop < start {
        DescendingColumns(start, step, stop);
      } else if start < stop {
        AscendingColumns(start, step, stop);
      } else {
        assert Enumeration(start, step, stop).value == [start];
      }
    }
  }

  /** The descending loop's columns: start, start - step, ... while at least stop. */
  lemma {:induction false} DescendingColumns(start: int, step: int, stop: int)
    requires step > 0 && 0 <= stop < start
    ensures var r := Descend(start, -step, stop);
      |r| > 0 && start - |r| * step < stop &&
      forall k :: 0 <= k < |r| ==> r[k] == start - k * step && r[k] >= stop
  {
    var r := Descend(start, -step, stop);
    DescendValues(start, -step, stop);
    DescendComplete(start, -step, stop);
    assert |r| * -step == -(|r| * step);
    forall k | 0 <= k < |r|
      ensures r[k] == start - k * step && r[k] >= stop
    {
      assert k * -step == -(k * step);
    }
  }

  /** The ascending loop's columns: start, start + step, ... while at most stop. */
  lemma {:induction false} AscendingColumns(start: int, step: int, stop: int)
    requires step > 0 && 0 <= start < stop
    ensures var r := Ascend(start, step, stop);
      |r| > 0 && start + |r| * step > stop &&
      forall k :: 0 <= k < |r| ==> r[k] == start + k * step && r[k] <= stop
  {
    AscendValues(start, step, stop);
    AscendComplete(start, step, stop);
  }

  /** `1:2:10` steps up by two to 9, `1:3:10` reaches 10, and `4:1:1` counts down. */
  lemma {:induction false} EnumerationExamples()
    ensures Enumeration(1, 2, 10) == Ok([1, 3, 5, 7, 9])
    ensures Enumeration(1, 3, 10) == Ok([1, 4, 7, 10])
    ensures Enumeration(4, 1, 1) == Ok([4, 3, 2, 1])
  {
    assert Ascend(9, 2, 10) == [9] + Ascend(11, 2, 10);
    assert Ascend(7, 2, 10) == [7, 9];
    assert Ascend(5, 2, 10) == [5, 7, 9];
    assert Ascend(3, 2, 10) == [3, 5, 7, 9];
    assert Ascend(1, 2, 10) == [1, 3, 5, 7, 9];
    assert Ascend(10, 3, 10) == [10] + Ascend(13, 3, 10);
    assert Ascend(7, 3, 10) == [7, 10];
    assert Ascend(4, 3, 10) == [4, 7, 10];
    assert Ascend(1, 3, 10) == [1, 4, 7, 10];
    assert Descend(1, -1, 1) == [1] + Descend(0, -1, 1);
    assert Descend(2, -1, 1) == [2, 1];
    assert Descend(3, -1, 1) == [3, 2, 1];
    assert Descend(4, -1, 1) == [4, 3, 2, 1];
  }

  /** `^\d+$`, `^\d+:\d+$`, `^\d+:\d+:\d+$`: the query is n runs of digits joined by colons. */
  predicate Shape(v: string, n: nat)
  {
    var split := Split(v, ":");
    |split| == n && forall k :: 0 <= k < n ==> IsDigits(split[k])
  }

  /** The (start, step, stop) a query names, its numbers read with Atoi's errors ignored. */
  function Triple(v: string): Option<(int, int, int)>
  {
    var split := Split(v, ":");
    if Shape(v, 1) then Some((AtoiValue(split[0]), 1, AtoiValue(split[0])))
    else if Shape(v, 2) then Some((AtoiValue(split[0]), 1, AtoiValue(split[1])))
    else if Shape(v, 3) then Some((AtoiValue(split[0]), AtoiValue(split[1]), AtoiValue(split[2])))
    else None
  }

  /** The columns of one query, or its error. */
  function QueryColumns(v: string): Result<seq<int>>
  {
    match Triple(v)
    case None => Err(InvalidQuery(v))
    case Some((start, step, stop)) => Enumeration(start, step, stop)
  }

  /** The columns of all queries concatenated in order, or the first error. */
  function Enumerated(queries: seq<string>): Result<seq<int>>
    decreases |queries|
  {
    if |queries| == 0 then Ok([])
    else
      match Enumerated(queries[..|queries| - 1])
      case Err(msg) => Err(msg)
      case Ok(cols) =>
        match QueryColumns(queries[|queries| - 1])
        case Err(msg) => Err(msg)
        case Ok(more) => Ok(cols + more)
  }

  /** Parsing a concatenation of query lists concatenates their columns; the first error wins. */
  lemma {:induction false} EnumeratedAppend(a: seq<string>, b: seq<string>)
    ensures Enumerated(a).Err? ==> Enumerated(a + b) == Enumerated(a)
    ensures Enumerated(a).Ok? && Enumerated(b).Err? ==> Enumerated(a + b) == Enumerated(b)
    ensures Enumerated(a).Ok? && Enumerated(b).Ok? ==>
      Enumerated(a + b) == Ok(Enumerated(a).value + Enumerated(b).value)
    decreases |b|
  {
    if |b| == 0 {
      assert a + b == a;
      if Enumerated(a).Ok? {
        assert Enumerated(a).value + [] == Enumerated(a).value;
      }
    } else {
      var init, last := b[..|b| - 1], b[|b| - 1];
      EnumeratedAppend(a, init);
      assert (a + b)[..|a + b| - 1] == a + init;
      assert (a + b)[|a + b| - 1] == last;
      var ea, ei, q := Enumerated(a), Enumerated(init), QueryColumns(last);
      assert Enumerated(b) == if ei.Err? then ei else if q.Err? then q else Ok(ei.value + q.value);
      if ea.Ok? && ei.Ok? && q.Ok? {
        Regroup(ea.value, ei.value, q.value);
      }
    }
  }

  /** Parser.Parse. */
  method Parse(query: seq<string>) returns (r: Result<ParseResult>)
    ensures r.Ok? <==> Enumerated(query).Ok?
    ensures r.Ok? ==> r.value.selectedColumns == Enumerated(query).value
    ensures r.Err? ==> r.error == Enumerated(query).error
  {
    var enumerated := [];
    var i := 0;
    while i < |query|
      invariant 0 <= i <= |query|
      invariant Enumerated(query[..i]) == Ok(enumerated)
    {
      var v := query[i];
      var split := Split(v, ":");
      var start, step, stop;
      if Shape(v, 1) {
        start := AtoiValue(split[0]);
        step := 1;
        stop := start;
      } else if Shape(v, 2) {
        start := AtoiValue(split[0]);
        step := 1;
        stop := AtoiValue(split[1]);
      } else if Shape(v, 3) {
        start := AtoiValue(split[0]);
        step := AtoiValue(split[1]);
        stop := AtoiValue(split[2]);
      } else {
        assert QueryColumns(v) == Err(InvalidQuery(v));
        FirstError(query, i);
        return Err(InvalidQuery(v));
      }
      assert Triple(v) == Some((start, step, stop));
      var e := Enumerate(start, step, stop);
      assert e == QueryColumns(v);
      if e.Err? {
        FirstError(query, i);
        return Err(e.error);
      }
      OneMore(query, i);
      enumerated := enumerated + e.value;
      i := i + 1;
    }
    assert query[..i] == query;
    return Ok(ParseResult(enumerated));
  }

  /** The queries before `i` parse and query `i` does not: its error is the error of all the queries. */
  lemma {:induction false} FirstError(query: seq<string>, i: int)
    requires 0 <= i < |query| && Enumerated(query[..i]).Ok? && QueryColumns(query[i]).Err?
    ensures Enumerated(query) == QueryColumns(query[i])
  {
    var pre, post := query[..i + 1], query[i + 1..];
    assert pre + post == query;
    assert pre[..|pre| - 1] == query[..i] && pre[|pre| - 1] == query[i];
    assert Enumerated(pre) == QueryColumns(query[i]);
    EnumeratedAppend(pre, post);
  }

  /** One more query that parses adds its columns after the ones before it. */
  lemma {:induction false} OneMore(query: seq<string>, i: int)
    requires 0 <= i < |query| && Enumerated(query[..i]).Ok? && QueryColumns(query[i]).Ok?
    ensures Enumerated(query[..i + 1]) == Ok(Enumerated(query[..i]).value + QueryColumns(query[i]).value)
  {
    assert query[..i + 1][..i] == query[..i] && query[..i + 1][i] == query[i];
  }

  /** A run of digits reads as a non-negative number. */
  lemma {:induction false} DigitsNonNegative(s: string)
    requires IsDigits(s)
    ensures AtoiValue(s) >= 0
  {
    assert s[0] != '-';
  }

  /**
   * The grammar has no sign, so enumerate's negative-bound check never
   * fires for a parsed query: a query of the right shape fails only for a
   * zero step.
   */
  lemma {:induction false} ShapedErrors(v: string)
    requires Triple(v).Some?
    ensures QueryColumns(v).Err? ==> QueryColumns(v).error == StepError
    ensures QueryColumns(v).Err? <==> Triple(v).value.1 == 0
  {
    var split := Split(v, ":");
    forall k | 0 <= k < |split| && k < 3
      ensures AtoiValue(split[k]) >= 0
    {
      DigitsNonNegative(split[k]);
    }
    EnumerationSpec(Triple(v).value.0, Triple(v).value.1, Triple(v).value.2);
  }

  /** The numbers a query of two or three digit runs names. */
  lemma {:induction false} TripleOf(v: string, parts: seq<string>)
    requires Split(v, ":") == parts && (|parts| == 2 || |parts| == 3)
    requires forall k :: 0 <= k < |parts| ==> IsDigits(parts[k])
    ensures |parts| == 2 ==> Triple(v) == Some((AtoiValue(parts[0]), 1, AtoiValue(parts[1])))
    ensures |parts| == 3 ==> Triple(v) == Some((AtoiValue(parts[0]), AtoiValue(parts[1]), AtoiValue(parts[2])))
  {
    assert !Shape(v, 1);
    if |parts| == 2 {
      assert Shape(v, 2);
    } else {
      assert !Shape(v, 2) && Shape(v, 3);
    }
  }

  /** A run of digits has no colon. */
  lemma {:induction false} DigitsNoColon(x: string)
    requires IsDigits(x)
    ensures ':' !in x
  {
    forall k | 0 <= k < |x|
      ensures x[k] != ':'
    {
      assert IsDigit(x[k]);
    }
  }

  /** `a`: a single run of digits is that one column. */
  lemma {:induction false} OneRun(x: string)
    requires IsDigits(x)
    ensures QueryColumns(x) == Ok([AtoiValue(x)])
  {
    DigitsNoColon(x);
    SplitJoin([x], ":");
    assert Shape(x, 1);
    DigitsNonNegative(x);
  }

  /** `a:b` is enumerate(a, 1, b). */
  lemma {:induction false} TwoRuns(x: string, y: string)
    requires IsDigits(x) && IsDigits(y)
    ensures QueryColumns(x + ":" + y) == Enumeration(AtoiValue(x), 1, AtoiValue(y))
  {
    DigitsNoColon(x);
    DigitsNoColon(y);
    SplitTwo(x, y, ":");
    TripleOf(x + ":" + y, [x, y]);
  }

  /** `a:b:c` is enumerate(a, b, c): the middle number is the step. */
  lemma {:induction false} ThreeRuns(x: string, y: string, z: string)
    requires IsDigits(x) && IsDigits(y) && IsDigits(z)
    ensures QueryColumns(x + ":" + y + ":" + z) == Enumeration(AtoiValue(x), AtoiValue(y), AtoiValue(z))
  {
    DigitsNoColon(x);
    DigitsNoColon(y);
    DigitsNoColon(z);
    SplitThree(x, y, z, ":");
    TripleOf(x + ":" + y + ":" + z, [x, y, z]);
  }

  /** The decimal text of a natural number is a run of digits that reads back as the number. */
  lemma {:induction false} ItoaDigits(n: int)
    requires 0 <= n <= MaxInt64
    ensures IsDigits(Itoa(n)) && AtoiValue(Itoa(n)) == n
  {
    AtoiItoa(n);
  }

  /** A signed number is not a query of this grammar. */
  lemma {:induction false} NegativeRejected()
    ensures QueryColumns("-1") == Err(InvalidQuery("-1"))
  {
    SplitJoin(["-1"], ":");
  }

  /**
   * ParseResult.Select: column 0 appends the whole line, column k the k-th
   * field; the first column outside 0..len fails.
   */
  method Select(pr: ParseResult, s: seq<string>) returns (r: Result<seq<string>>)
    ensures r.Ok? <==> AllIn(pr.selectedColumns, 0, |s|)
    ensures r.Ok? ==> r.value == Expand(s, pr.selectedColumns)
    ensures r.Err? ==> exists i :: (0 <= i < |pr.selectedColumns| &&
      !(0 <= pr.selectedColumns[i] <= |s|) && AllIn(pr.selectedColumns[..i], 0, |s|) &&
      r.error == OutOfRange(pr.selectedColumns[i], |s|))
  {
    var cols := pr.selectedColumns;
    var rt := [];
    var l := |s|;
    var i := 0;
    while i < |cols|
      invariant 0 <= i <= |cols|
      invariant AllIn(cols[..i], 0, l)
      invariant rt == Expand(s, cols[..i])
    {
      var idx := cols[i];
      if l < idx || idx < 0 {
        return Err(OutOfRange(idx, l));
      }
      assert cols[..i + 1] == cols[..i] + [idx];
      ExpandAppend(s, cols[..i], [idx]);
      if idx == 0 {
        rt := rt + s;
      } else {
        rt := rt + [s[idx - 1]];
      }
      i := i + 1;
    }
    assert cols[..i] == cols;
    return Ok(rt);
  }

  /**
   * What Select returns: as many fields as the columns ask for, each a
   * field of the line, and a repeated column repeats its field.
   */
  lemma {:induction false} SelectedFields(s: seq<string>, cols: seq<int>, k: int)
    requires AllIn(cols, 0, |s|) && 1 <= k <= |s|
    ensures |Expand(s, cols)| == ExpandCount(|s|, cols)
    ensures forall x :: x in Expand(s, cols) ==> x in s
    ensures Expand(s, [k, k]) == [s[k - 1], s[k - 1]]
    ensures Expand(s, [0]) == s
  {
    ExpandLength(s, cols);
    ExpandFromRow(s, cols);
    assert [k, k][1..] == [k];
    assert Expand(s, [k]) == [s[k - 1]] + Expand(s, []);
    assert Expand(s, [0]) == s + Expand(s, []);
  }

  /** `1:len` selects the whole line, field by field. */
  lemma {:induction false} WholeLine(s: seq<string>)
    requires 1 <= |s| <= MaxInt64
    ensures QueryColumns(Itoa(1) + ":" + Itoa(|s|)).Ok?
    ensures AllIn(QueryColumns(Itoa(1) + ":" + Itoa(|s|)).value, 0, |s|)
    ensures Expand(s, QueryColumns(Itoa(1) + ":" + Itoa(|s|)).value) == s
  {
    ItoaDigits(1);
    ItoaDigits(|s|);
    TwoRuns(Itoa(1), Itoa(|s|));
    EnumerationSpec(1, 1, |s|);
    ExpandAll(s, 1);
    if |s| == 1 {
      assert Ascend(1, 1, 1) == [1] + Ascend(2, 1, 1);
    }
  }
}
