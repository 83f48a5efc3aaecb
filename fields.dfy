/**
 * Vocabulary shared by the selectors and iterators: the empty-field filter,
 * reversal, arithmetic index progressions and the zero-splicing expansion
 * of a list of 1-based column numbers.
 */
module Fields {

  /** The fields of `s` that are not the empty string, in their original order. */
  function NonEmpty(s: seq<string>): (r: seq<string>)
    ensures |r| <= |s|
    ensures forall i :: 0 <= i < |r| ==> r[i] != ""
    decreases |s|
  {
    if |s| == 0 then []
    else if s[0] == "" then NonEmpty(s[1..])
    else [s[0]] + NonEmpty(s[1..])
  }

  predicate NoEmpty(s: seq<string>)
  {
    forall i :: 0 <= i < |s| ==> s[i] != ""
  }

  /** Filtering distributes over concatenation. */
  lemma {:induction false} NonEmptyAppend(a: seq<string>, b: seq<string>)
    ensures NonEmpty(a + b) == NonEmpty(a) + NonEmpty(b)
    decreases |a|
  {
    if |a| > 0 {
      assert (a + b)[1..] == a[1..] + b;
      NonEmptyAppend(a[1..], b);
    } else {
      assert a + b == b;
    }
  }

  /** A sequence without empty fields passes the filter unchanged. */
  lemma {:induction false} NonEmptyKeeps(s: seq<string>)
    requires NoEmpty(s)
    ensures NonEmpty(s) == s
    decreases |s|
  {
    if |s| > 0 {
      NonEmptyKeeps(s[1..]);
    }
  }

  lemma {:induction false} NonEmptyOne(x: string)
    ensures NonEmpty([x]) == if x == "" then [] else [x]
  {
    assert [x][1..] == [];
  }

  /** The filtering loop of the iterators and the splitter: copy the fields that are not empty. */
  method RemoveEmpty(s: seq<string>) returns (a: seq<string>)
    ensures a == NonEmpty(s)
  {
    a := [];
    var i := 0;
    while i < |s|
      invariant 0 <= i <= |s|
      invariant a == NonEmpty(s[..i])
    {
      assert s[..i + 1] == s[..i] + [s[i]];
      NonEmptyAppend(s[..i], [s[i]]);
      NonEmptyOne(s[i]);
      if |s[i]| != 0 {
        a := a + [s[i]];
      }
      i := i + 1;
    }
    assert s[..i] == s;
  }

  /** Filtering twice is filtering once. */
  lemma {:induction false} NonEmptyIdempotent(s: seq<string>)
    ensures NonEmpty(NonEmpty(s)) == NonEmpty(s)
  {
    NonEmptyKeeps(NonEmpty(s));
  }

  /** The filter keeps exactly the non-empty fields, with their multiplicities. */
  lemma {:induction false} NonEmptyMultiset(s: seq<string>)
    ensures multiset(NonEmpty(s)) == multiset(s)[""  := 0]
    decreases |s|
  {
    if |s| > 0 {
      NonEmptyMultiset(s[1..]);
      assert s == [s[0]] + s[1..];
    }
  }

  function Reverse<T>(s: seq<T>): (r: seq<T>)
    ensures |r| == |s|
    ensures forall i :: 0 <= i < |s| ==> r[i] == s[|s| - 1 - i]
    decreases |s|
  {
    if |s| == 0 then [] else Reverse(s[1..]) + [s[0]]
  }

  /**
   * Regrouping a concatenation. Called where the two sides sit among
   * unfolded recursive definitions: there, an inline assert of the same
   * fact sends the solver searching far more than the call does.
   */
  lemma {:induction false} Regroup<T>(x: seq<T>, y: seq<T>, z: seq<T>)
    ensures x + y + z == x + (y + z)
  {
  }

  lemma {:induction false} ReverseSnoc<T>(s: seq<T>, x: T)
    ensures Reverse(s + [x]) == [x] + Reverse(s)
  {
  }

  /** `i, i + step, ...` while the value does not exceed `stop`. */
  function Ascend(i: int, step: int, stop: int): (r: seq<int>)
    requires step > 0
    ensures i <= stop ==> |r| > 0
    decreases stop - i + step
  {
    if i > stop then [] else [i] + Ascend(i + step, step, stop)
  }

  /** The k-th value of Ascend is `i + k * step`, never past `stop`. */
  lemma {:induction false} AscendValues(i: int, step: int, stop: int)
    requires step > 0
    ensures forall k :: 0 <= k < |Ascend(i, step, stop)| ==>
      Ascend(i, step, stop)[k] == i + k * step && Ascend(i, step, stop)[k] <= stop
    decreases stop - i + step
  {
    if i <= stop {
      var rest := Ascend(i + step, step, stop);
      AscendValues(i + step, step, stop);
      var r := Ascend(i, step, stop);
      assert r == [i] + rest;
      forall k | 0 <= k < |r|
        ensures r[k] == i + k * step && r[k] <= stop
      {
        if k > 0 {
          assert r[k] == rest[k - 1];
          assert rest[k - 1] == (i + step) + (k - 1) * step && rest[k - 1] <= stop;
          assert (i + step) + (k - 1) * step == i + k * step;
        } else {
          assert r[0] == i && 0 * step == 0;
        }
      }
    }
  }

  /** `i, i + step, ...` with a negative step while the value is not below `stop`. */
  function Descend(i: int, step: int, stop: int): (r: seq<int>)
    requires step < 0
    ensures i >= stop ==> |r| > 0
    decreases i - stop - step
  {
    if i < stop then [] else [i] + Descend(i + step, step, stop)
  }

  /** The k-th value of Descend is `i + k * step`, never below `stop`. */
  lemma {:induction false} DescendValues(i: int, step: int, stop: int)
    requires step < 0
    ensures forall k :: 0 <= k < |Descend(i, step, stop)| ==>
      Descend(i, step, stop)[k] == i + k * step && Descend(i, step, stop)[k] >= stop
    decreases i - stop - step
  {
    if i >= stop {
      var rest := Descend(i + step, step, stop);
      DescendValues(i + step, step, stop);
      var r := Descend(i, step, stop);
      assert r == [i] + rest;
      forall k | 0 <= k < |r|
        ensures r[k] == i + k * step && r[k] >= stop
      {
        if k > 0 {
          assert r[k] == rest[k - 1];
          assert rest[k - 1] == (i + step) + (k - 1) * step && rest[k - 1] >= stop;
          assert (i + step) + (k - 1) * step == i + k * step;
        } else {
          assert r[0] == i && 0 * step == 0;
        }
      }
    }
  }

  /** Ascend stops exactly at the last value that does not exceed `stop`. */
  lemma {:induction false} AscendComplete(i: int, step: int, stop: int)
    requires step > 0
    ensures var r := Ascend(i, step, stop);
      if i > stop then r == [] else i + |r| * step > stop
    decreases stop - i + step
  {
    if i <= stop {
      AscendComplete(i + step, step, stop);
    }
  }

  /** Descend stops exactly at the last value that is not below `stop`. */
  lemma {:induction false} DescendComplete(i: int, step: int, stop: int)
    requires step < 0
    ensures var r := Descend(i, step, stop);
      if i < stop then r == [] else i + |r| * step < stop
    decreases i - stop - step
  {
    if i >= stop {
      DescendComplete(i + step, step, stop);
    }
  }

  /** The progression a range loop visits: ascending for a positive step, descending for a negative one. */
  function Progression(i: int, step: int, stop: int): seq<int>
    requires step != 0
  {
    if step > 0 then Ascend(i, step, stop) else Descend(i, step, stop)
  }

  /** The loop condition of either direction. */
  predicate Within(i: int, step: int, stop: int)
  {
    if step > 0 then i <= stop else i >= stop
  }

  /** One turn of a range loop: visit `i`, then continue from `i + step`; out of bounds, nothing. */
  lemma {:induction false} ProgressionStep(i: int, step: int, stop: int)
    requires step != 0
    ensures Within(i, step, stop) ==> Progression(i, step, stop) == [i] + Progression(i + step, step, stop)
    ensures !Within(i, step, stop) ==> Progression(i, step, stop) == []
  {
  }

  /** A value followed by values in a range that contains it stays in that range. */
  lemma {:induction false} AllInCons(x: int, rest: seq<int>, lo: int, hi: int)
    requires lo <= x <= hi && AllIn(rest, lo, hi)
    ensures AllIn([x] + rest, lo, hi)
  {
    forall k | 0 <= k < |[x] + rest|
      ensures lo <= ([x] + rest)[k] <= hi
    {
      if k > 0 {
        assert ([x] + rest)[k] == rest[k - 1];
      }
    }
  }

  /** Every visited value lies between the start and the bound. */
  lemma {:induction false} ProgressionBounds(i: int, step: int, stop: int)
    requires step != 0
    ensures step > 0 ==> AllIn(Progression(i, step, stop), i, stop)
    ensures step < 0 ==> AllIn(Progression(i, step, stop), stop, i)
    decreases if step > 0 then stop - i + step else i - stop - step
  {
    ProgressionStep(i, step, stop);
    if Within(i, step, stop) {
      var rest := Progression(i + step, step, stop);
      ProgressionBounds(i + step, step, stop);
      if step > 0 {
        AllInWiden(rest, i + step, stop, i, stop);
        AllInCons(i, rest, i, stop);
      } else {
        AllInWiden(rest, stop, i + step, stop, i);
        AllInCons(i, rest, stop, i);
      }
    }
  }

  lemma {:induction false} AllInWiden(idxs: seq<int>, lo: int, hi: int, lo2: int, hi2: int)
    requires AllIn(idxs, lo, hi) && lo2 <= lo && hi <= hi2
    ensures AllIn(idxs, lo2, hi2)
  {
  }

  predicate AllIn(idxs: seq<int>, lo: int, hi: int)
  {
    forall k :: 0 <= k < |idxs| ==> lo <= idxs[k] <= hi
  }

  /**
   * Zero-splicing expansion: column 0 stands for the whole row, column `i`
   * for the 1-based field `row[i - 1]`.
   */
  function Expand(row: seq<string>, idxs: seq<int>): (r: seq<string>)
    requires AllIn(idxs, 0, |row|)
    decreases |idxs|
  {
    if |idxs| == 0 then []
    else (if idxs[0] == 0 then row else [row[idxs[0] - 1]]) + Expand(row, idxs[1..])
  }

  /** How many fields Expand produces. */
  function ExpandCount(m: nat, idxs: seq<int>): nat
    decreases |idxs|
  {
    if |idxs| == 0 then 0 else (if idxs[0] == 0 then m else 1) + ExpandCount(m, idxs[1..])
  }

  lemma {:induction false} ExpandAppend(row: seq<string>, a: seq<int>, b: seq<int>)
    requires AllIn(a, 0, |row|) && AllIn(b, 0, |row|)
    ensures AllIn(a + b, 0, |row|)
    ensures Expand(row, a + b) == Expand(row, a) + Expand(row, b)
    decreases |a|
  {
    if |a| > 0 {
      assert (a + b)[1..] == a[1..] + b;
      ExpandAppend(row, a[1..], b);
    } else {
      assert a + b == b;
    }
  }

  lemma {:induction false} ExpandLength(row: seq<string>, idxs: seq<int>)
    requires AllIn(idxs, 0, |row|)
    ensures |Expand(row, idxs)| == ExpandCount(|row|, idxs)
    decreases |idxs|
  {
    if |idxs| > 0 {
      ExpandLength(row, idxs[1..]);
    }
  }

  lemma {:induction false} ExpandCountAppend(m: nat, a: seq<int>, b: seq<int>)
    ensures ExpandCount(m, a + b) == ExpandCount(m, a) + ExpandCount(m, b)
    decreases |a|
  {
    if |a| > 0 {
      assert (a + b)[1..] == a[1..] + b;
      ExpandCountAppend(m, a[1..], b);
    } else {
      assert a + b == b;
    }
  }

  /** Every selected field is a field of the row. */
  lemma {:induction false} ExpandFromRow(row: seq<string>, idxs: seq<int>)
    requires AllIn(idxs, 0, |row|)
    ensures forall x :: x in Expand(row, idxs) ==> x in row
    decreases |idxs|
  {
    if |idxs| > 0 {
      ExpandFromRow(row, idxs[1..]);
    }
  }

  /** Selecting columns 1..|row| in order gives the row back. */
  lemma {:induction false} ExpandAll(row: seq<string>, i: int)
    requires 1 <= i <= |row| + 1
    ensures AllIn(Ascend(i, 1, |row|), 0, |row|)
    ensures Expand(row, Ascend(i, 1, |row|)) == row[i - 1..]
    decreases |row| + 1 - i
  {
    if i <= |row| {
      ExpandAll(row, i + 1);
      assert row[i - 1..] == [row[i - 1]] + row[i..];
    }
  }

  /** The values stored under keys lo..hi-1 of a key-indexed buffer, in key order. */
  function Span(buf: map<int, string>, lo: int, hi: int): (r: seq<string>)
    requires forall k :: lo <= k < hi ==> k in buf
    ensures |r| == if lo <= hi then hi - lo else 0
    decreases hi - lo
  {
    if hi <= lo then [] else Span(buf, lo, hi - 1) + [buf[hi - 1]]
  }

  /** The value under key k sits at position k - lo of the span. */
  lemma {:induction false} SpanAt(buf: map<int, string>, lo: int, hi: int)
    requires forall k :: lo <= k < hi ==> k in buf
    ensures forall k :: lo <= k < hi ==> Span(buf, lo, hi)[k - lo] == buf[k]
    decreases hi - lo
  {
    if lo < hi {
      SpanAt(buf, lo, hi - 1);
    }
  }

  /** Span depends only on the keys it reads. */
  lemma {:induction false} SpanFrame(b1: map<int, string>, b2: map<int, string>, lo: int, hi: int)
    requires forall k :: lo <= k < hi ==> k in b1 && k in b2 && b1[k] == b2[k]
    ensures Span(b1, lo, hi) == Span(b2, lo, hi)
    decreases hi - lo
  {
    if lo < hi {
      SpanFrame(b1, b2, lo, hi - 1);
    }
  }

  /** Storing under the key just above a span extends it at the end. */
  lemma {:induction false} SpanSnoc(buf: map<int, string>, lo: int, hi: int, x: string)
    requires lo <= hi && forall k :: lo <= k < hi ==> k in buf
    ensures Span(buf[hi := x], lo, hi + 1) == Span(buf, lo, hi) + [x]
  {
    SpanFrame(buf[hi := x], buf, lo, hi);
  }

  /** Storing under the key just below a span extends it at the front. */
  lemma {:induction false} SpanCons(buf: map<int, string>, lo: int, hi: int, x: string)
    requires lo <= hi && forall k :: lo <= k < hi ==> k in buf
    ensures Span(buf[lo - 1 := x], lo - 1, hi) == [x] + Span(buf, lo, hi)
  {
    var b2 := buf[lo - 1 := x];
    SpanAt(b2, lo - 1, hi);
    SpanAt(buf, lo, hi);
    var r, t := Span(b2, lo - 1, hi), [x] + Span(buf, lo, hi);
    forall j | 0 <= j < |r|
      ensures r[j] == t[j]
    {
      var k := j + lo - 1;
      assert r[k - (lo - 1)] == b2[k];
      if j > 0 {
        assert t[j] == Span(buf, lo, hi)[k - lo];
      }
    }
  }

  /** The copy loop of both map-based ToArray methods: keys 1..n into a fresh slice. */
  method CopySpan(buf: map<int, string>, n: nat) returns (r: seq<string>)
    requires forall k :: 1 <= k <= n ==> k in buf
    ensures r == Span(buf, 1, n + 1)
  {
    var a := new string[n];
    var i := 1;
    while i <= n
      invariant 1 <= i <= n + 1
      invariant a[..i - 1] == Span(buf, 1, i)
    {
      a[i - 1] := buf[i];
      assert a[..i] == a[..i - 1] + [buf[i]];
      i := i + 1;
    }
    assert a[..] == a[..n];
    r := a[..];
  }
}
