/**
 * iterator/iterator.go: the map-based line cursors of the older generation.
 * `Iterator` cuts a line lazily at a literal separator and stores the fields
 * cut from the front under keys 1..head and those cut from the back under
 * keys tail..-1 of one map; `RegexpIterator` cuts forward at the matches of
 * a regular expression into keys 1..head.
 */
module LegacyIterator {
  import opened Wrappers
  import opened GoStrings
  import opened Fields
  import opened LazySplit
  import Regex

  const IndexOutOfRange: string := "index out of range"

  /**
   * The delimiter flags NewIEnumerable reads, with the CSV/TSV decision
   * (`IsXsv`) already taken: `xsv` says whether the input is CSV/TSV and
   * `comma` is its field separator.
   */
  datatype Delimiters = Delimiters(
    xsv: bool,
    comma: char,
    inputDelimiter: string,
    removeEmpty: bool,
    useRegexp: bool,
    splitBefore: bool)

  /** The iterator NewIEnumerable chooses, with the arguments it passes. */
  datatype Strategy =
    | PreSplit(sep: string, removeEmpty: bool)
    | PreSplitByRegexp(re: Regex.Regexp, removeEmpty: bool)
    | RegexpSplit(re: Regex.Regexp, removeEmpty: bool)
    | Lazy(sep: string, removeEmpty: bool)

  /**
   * NewIEnumerable: CSV/TSV rows come pre-split on the comma rune; otherwise
   * the regular-expression flag and the split-before flag pick one of four
   * strategies, and a pattern that does not compile is the error.
   */
  function NewIEnumerable(d: Delimiters, e: Regex.Engine): (r: Result<Strategy>)
    ensures r.Err? <==> (!d.xsv && d.useRegexp && e.compileError(d.inputDelimiter).Some?)
    ensures r.Err? ==> r.error == e.compileError(d.inputDelimiter).value
    ensures r.Ok? ==> r.value.removeEmpty == d.removeEmpty
    ensures d.xsv ==> r == Ok(PreSplit([d.comma], d.removeEmpty))
    ensures r.Ok? && !d.xsv ==>
      (r.value.PreSplit? || r.value.PreSplitByRegexp? <==> d.splitBefore) &&
      (r.value.PreSplitByRegexp? || r.value.RegexpSplit? <==> d.useRegexp)
    ensures r.Ok? && (r.value.PreSplitByRegexp? || r.value.RegexpSplit?) ==>
      r.value.re.pattern == d.inputDelimiter
    ensures r.Ok? && !d.xsv && (r.value.PreSplit? || r.value.Lazy?) ==>
      r.value.sep == d.inputDelimiter
  {
    if d.xsv then Ok(PreSplit([d.comma], d.removeEmpty))
    else if d.useRegexp then
      match Regex.Compile(e, d.inputDelimiter)
      case Err(msg) => Err(msg)
      case Ok(re) => if d.splitBefore then Ok(PreSplitByRegexp(re, d.removeEmpty)) else Ok(RegexpSplit(re, d.removeEmpty))
    else if d.splitBefore then Ok(PreSplit(d.inputDelimiter, d.removeEmpty))
    else Ok(Lazy(d.inputDelimiter, d.removeEmpty))
  }

  /** Keys 1..head and tail..-1 are all present. */
  ghost predicate Keyed(buf: map<int, string>, head: int, tail: int)
  {
    (forall k :: 1 <= k <= head ==> k in buf) && (forall k :: tail <= k <= -1 ==> k in buf)
  }

  /** No key in 1..head or tail..-1 holds the empty string. */
  ghost predicate NoEmptyKeys(buf: map<int, string>, head: int, tail: int)
  {
    forall k :: k in buf && (1 <= k <= head || tail <= k <= -1) ==> buf[k] != ""
  }

  /** Storing a front field under head + 1 extends the front span and leaves the back span alone. */
  lemma {:induction false} StoreFront(buf: map<int, string>, head: int, tail: int, x: string)
    requires tail <= 0 <= head && Keyed(buf, head, tail)
    ensures Span(buf[head + 1 := x], 1, head + 2) == Span(buf, 1, head + 1) + [x]
    ensures Span(buf[head + 1 := x], tail, 0) == Span(buf, tail, 0)
  {
    SpanSnoc(buf, 1, head + 1, x);
    SpanFrame(buf[head + 1 := x], buf, tail, 0);
  }

  /** A front cut moves its field from the unsplit middle to the end of the front span: the fields stay the same. */
  lemma {:induction false} NextView(b: map<int, string>, h: int, tl: int, t: string, sep: string, item: string, ok: bool, rest: string)
    requires sep != "" && tl <= 0 <= h && Keyed(b, h, tl)
    requires FrontCut(t, sep, true) == Cut(item, ok, rest)
    ensures var b2, h2 := (if ok then b[h + 1 := item] else b), (if ok then h + 1 else h);
      Span(b2, 1, h2 + 1) + Pieces(rest, sep, true) + Span(b2, tl, 0) ==
      Span(b, 1, h + 1) + Pieces(t, sep, true) + Span(b, tl, 0)
  {
    FrontCutPieces(t, sep);
    if ok {
      NextViewCut(b, h, tl, Pieces(t, sep, true), Pieces(rest, sep, true), item);
    } else {
      assert Pieces(t, sep, true) == Pieces(rest, sep, true);
    }
  }

  lemma {:induction false} NextViewCut(b: map<int, string>, h: int, tl: int, pt: seq<string>, p: seq<string>, item: string)
    requires tl <= 0 <= h && Keyed(b, h, tl) && pt == [item] + p
    ensures Span(b[h + 1 := item], 1, h + 2) + p + Span(b[h + 1 := item], tl, 0) ==
      Span(b, 1, h + 1) + pt + Span(b, tl, 0)
  {
    StoreFront(b, h, tl, item);
    var f, q := Span(b, 1, h + 1), Span(b, tl, 0);
    assert f + ([item] + p) + q == (f + [item]) + p + q;
  }

  /** A back cut moves its field from the unsplit middle to the front of the back span: the fields stay the same. */
  lemma {:induction false} LastView(b: map<int, string>, h: int, tl: int, t: string, sep: string, item: string, ok: bool, rest: string)
    requires sep != "" && NoSelfOverlap(sep) && tl <= 0 <= h && Keyed(b, h, tl)
    requires BackCut(t, sep, true) == Cut(item, ok, rest)
    ensures var b2, tl2 := (if ok then b[tl - 1 := item] else b), (if ok then tl - 1 else tl);
      Span(b2, 1, h + 1) + Pieces(rest, sep, true) + Span(b2, tl2, 0) ==
      Span(b, 1, h + 1) + Pieces(t, sep, true) + Span(b, tl, 0)
  {
    BackCutPieces(t, sep);
    if ok {
      LastViewCut(b, h, tl, Pieces(t, sep, true), Pieces(rest, sep, true), item);
    } else {
      assert Pieces(t, sep, true) == Pieces(rest, sep, true);
    }
  }

  lemma {:induction false} LastViewCut(b: map<int, string>, h: int, tl: int, pt: seq<string>, p: seq<string>, item: string)
    requires tl <= 0 <= h && Keyed(b, h, tl) && pt == p + [item]
    ensures Span(b[tl - 1 := item], 1, h + 1) + p + Span(b[tl - 1 := item], tl - 1, 0) ==
      Span(b, 1, h + 1) + pt + Span(b, tl, 0)
  {
    StoreBack(b, h, tl, item);
    var f, q := Span(b, 1, h + 1), Span(b, tl, 0);
    assert f + (p + [item]) + q == f + p + ([item] + q);
  }

  /** Storing a back field under tail - 1 extends the back span and leaves the front span alone. */
  lemma {:induction false} StoreBack(buf: map<int, string>, head: int, tail: int, x: string)
    requires tail <= 0 <= head && Keyed(buf, head, tail)
    ensures Span(buf[tail - 1 := x], tail - 1, 0) == [x] + Span(buf, tail, 0)
    ensures Span(buf[tail - 1 := x], 1, head + 1) == Span(buf, 1, head + 1)
  {
    SpanCons(buf, tail, 0, x);
    SpanFrame(buf[tail - 1 := x], buf, 1, head + 1);
  }

  /** A memo write outside both spans changes neither, and keeps every span key present and non-empty. */
  lemma {:induction false} StoreOutside(buf: map<int, string>, head: int, tail: int, idx: int, x: string)
    requires tail <= 0 <= head && Keyed(buf, head, tail) && (idx > head || idx < tail)
    ensures Span(buf[idx := x], 1, head + 1) == Span(buf, 1, head + 1)
    ensures Span(buf[idx := x], tail, 0) == Span(buf, tail, 0)
    ensures Keyed(buf[idx := x], head, tail)
    ensures NoEmptyKeys(buf, head, tail) ==> NoEmptyKeys(buf[idx := x], head, tail)
  {
    SpanFrame(buf[idx := x], buf, 1, head + 1);
    SpanFrame(buf[idx := x], buf, tail, 0);
  }

  /** A key in tail..-1 is the field that many places from the end. */
  lemma {:induction false} BackField(buf: map<int, string>, head: int, tail: int, p: seq<string>, idx: int)
    requires tail <= 0 <= head && Keyed(buf, head, tail) && tail <= idx < 0
    ensures var v := Span(buf, 1, head + 1) + p + Span(buf, tail, 0);
      -idx <= |v| && v[|v| + idx] == buf[idx]
  {
    var v := Span(buf, 1, head + 1) + p + Span(buf, tail, 0);
    SpanAt(buf, tail, 0);
    assert v[|v| + idx] == Span(buf, tail, 0)[idx - tail];
  }

  /** A key in 1..head is the field at that 1-based position. */
  lemma {:induction false} FrontField(buf: map<int, string>, head: int, tail: int, p: seq<string>, idx: int)
    requires tail <= 0 <= head && Keyed(buf, head, tail) && 1 <= idx <= head
    ensures var v := Span(buf, 1, head + 1) + p + Span(buf, tail, 0);
      idx <= |v| && v[idx - 1] == buf[idx]
  {
    SpanAt(buf, 1, head + 1);
  }

  /**
   * The positive lookup on an exhausted line: a front key answers directly,
   * an index within the head - tail fields is the back key
   * idx - head + tail - 1, and a larger index is past the fields.
   */
  lemma {:induction false} FrontLookupField(buf: map<int, string>, head: int, tail: int, p: seq<string>, idx: int)
    requires tail <= 0 <= head && Keyed(buf, head, tail) && idx > 0 && (idx > head ==> p == [])
    ensures var v := Span(buf, 1, head + 1) + p + Span(buf, tail, 0);
      (idx <= head ==> idx <= |v| && v[idx - 1] == buf[idx]) &&
      (head < idx <= head - tail ==>
        idx - head + tail - 1 in buf && idx <= |v| && v[idx - 1] == buf[idx - head + tail - 1]) &&
      (head - tail < idx ==> |v| < idx)
  {
    if idx <= head {
      FrontField(buf, head, tail, p, idx);
    } else if idx <= head - tail {
      BackField(buf, head, tail, p, idx - head + tail - 1);
    }
  }

  /**
   * The negative cross-end lookup as written: once the line is exhausted,
   * field `-idx` from the end is read from key idx - tail + head + 1,
   * whatever that key holds.
   */
  function CrossEndAsWritten(buf: map<int, string>, head: int, tail: int, idx: int): Option<string>
  {
    var k := idx - tail + head + 1;
    if k in buf then Some(buf[k]) else None
  }

  /**
   * The negative cross-end lookup with the bound the positive lookup has:
   * only indices within the head - tail fields are answered.
   */
  function CrossEnd(buf: map<int, string>, head: int, tail: int, idx: int): Option<string>
  {
    var k := idx - tail + head + 1;
    if -idx <= head - tail && k in buf then Some(buf[k]) else None
  }

  /**
   * On an exhausted line, whose fields are the front span then the back span,
   * the bounded lookup answers exactly the indices within the fields, with
   * the field `-idx` from the end.
   */
  lemma {:induction false} CrossEndField(buf: map<int, string>, head: int, tail: int, idx: int)
    requires tail <= 0 <= head && Keyed(buf, head, tail) && idx < tail
    ensures var v := Span(buf, 1, head + 1) + Span(buf, tail, 0);
      (CrossEnd(buf, head, tail, idx).Some? <==> -idx <= |v|) &&
      (CrossEnd(buf, head, tail, idx).Some? ==> CrossEnd(buf, head, tail, idx).value == v[|v| + idx])
  {
    var v := Span(buf, 1, head + 1) + Span(buf, tail, 0);
    var k := idx - tail + head + 1;
    if -idx <= |v| {
      SpanAt(buf, 1, head + 1);
      assert 1 <= k <= head;
      assert v[|v| + idx] == Span(buf, 1, head + 1)[k - 1];
    }
  }

  /**
   * The lookup as written answers an index past the fields: after
   * NewIterator("a", " ", false) and Last, the map is {0: "a", -1: "a"} with
   * head 0 and tail -1, one field; ElementAt(-2) reads key 0, which the
   * constructor filled with the whole line.
   */
  lemma {:induction false} CrossEndAsWrittenOvershoots()
    ensures var buf := map[0 := "a", -1 := "a"];
      var v := Span(buf, 1, 1) + Span(buf, -1, 0);
      v == ["a"] && CrossEndAsWritten(buf, 0, -1, -2) == Some("a") && CrossEnd(buf, 0, -1, -2) == None
  {
    var buf := map[0 := "a", -1 := "a"];
    assert Span(buf, -1, 0) == Span(buf, -1, -1) + [buf[-1]];
  }

  /** The literal-separator iterator. */
  class Iterator {
    /** Fields cut from the front under keys 1..head, from the back under tail..-1. */
    var buf: map<int, string>
    const sep: string
    /** The unsplit middle of the line. */
    var s: string
    var head: int
    var tail: int
    const removeEmpty: bool
    /** The slice ToArray caches; None is Go's nil slice. */
    var cache: Option<seq<string>>

    ghost predicate Valid()
      reads this
    {
      sep != "" && tail <= 0 <= head && Keyed(buf, head, tail) &&
      (removeEmpty ==> NoEmptyKeys(buf, head, tail))
    }

    /** The fields this iterator presents: the front span, the unsplit middle split, the back span. */
    ghost function View(): seq<string>
      reads this
      requires Valid()
    {
      Span(buf, 1, head + 1) + Pieces(s, sep, removeEmpty) + Span(buf, tail, 0)
    }

    /** NewIterator: the map starts with the whole line under key 0. */
    constructor (s: string, sep: string, removeEmpty: bool)
      requires sep != ""
      ensures Valid()
      ensures this.sep == sep && this.removeEmpty == removeEmpty
      ensures buf == map[0 := s] && this.s == s && head == 0 && tail == 0 && cache == None
      ensures View() == Pieces(s, sep, removeEmpty)
    {
      buf := map[0 := s];
      this.sep := sep;
      this.s := s;
      head := 0;
      tail := 0;
      this.removeEmpty := removeEmpty;
      cache := None;
    }

    /** Reset: install a new line; the map, the separator and the filter flag are kept. */
    method Reset(s: string)
      requires Valid()
      modifies this
      ensures Valid()
      ensures this.s == s && head == 0 && tail == 0 && buf == old(buf) && cache == None
      ensures View() == Pieces(s, sep, removeEmpty)
    {
      this.s := s;
      head := 0;
      tail := 0;
      cache := None;
    }

    /** Next: cut the next field off the front and store it under key head + 1. */
    method Next() returns (item: string, ok: bool)
      requires Valid()
      modifies this
      ensures Valid()
      ensures FrontCut(old(s), sep, removeEmpty) == Cut(item, ok, s)
      ensures head == (if ok then old(head) + 1 else old(head))
      ensures buf == (if ok then old(buf)[head := item] else old(buf))
      ensures tail == old(tail) && cache == old(cache)
      decreases |s|
    {
      var t := s;
      if t == "" {
        return "", false;
      }
      var m := Index(t, sep);
      if m < 0 {
        head := head + 1;
        buf := buf[head := t];
        s := "";
        return t, true;
      }
      var a := t[..m];
      s := t[m + |sep|..];
      if removeEmpty && a == "" {
        item, ok := Next();
        return;
      }
      head := head + 1;
      buf := buf[head := a];
      return a, true;
    }

    /** Last: cut the next field off the back and store it under key tail - 1. */
    method Last() returns (item: string, ok: bool)
      requires Valid()
      modifies this
      ensures Valid()
      ensures BackCut(old(s), sep, removeEmpty) == Cut(item, ok, s)
      ensures tail == (if ok then old(tail) - 1 else old(tail))
      ensures buf == (if ok then old(buf)[tail := item] else old(buf))
      ensures head == old(head) && cache == old(cache)
      decreases |s|
    {
      var t := s;
      if t == "" {
        return "", false;
      }
      var m := LastIndex(t, sep);
      if m < 0 {
        tail := tail - 1;
        buf := buf[tail := t];
        s := "";
        return t, true;
      }
      var a := t[m + |sep|..];
      s := t[..m];
      if removeEmpty && a == "" {
        item, ok := Last();
        return;
      }
      tail := tail - 1;
      buf := buf[tail := a];
      return a, true;
    }

    /** Next as ElementAt drives it, with the view it leaves unchanged when empties are removed. */
    method NextStep() returns (ok: bool)
      requires Valid()
      modifies this
      ensures Valid()
      ensures tail == old(tail) && cache == old(cache)
      ensures head == (if ok then old(head) + 1 else old(head))
      ensures ok ==> |s| < |old(s)|
      ensures !ok ==> s == ""
      ensures removeEmpty ==> View() == old(View())
    {
      ghost var t, b, h := s, buf, head;
      var item;
      item, ok := Next();
      if removeEmpty {
        NextView(b, h, tail, t, sep, item, ok, s);
      }
    }

    /** Last as ElementAt drives it, with the view it leaves unchanged when empties are removed. */
    method LastStep() returns (ok: bool)
      requires Valid()
      modifies this
      ensures Valid()
      ensures head == old(head) && cache == old(cache)
      ensures tail == (if ok then old(tail) - 1 else old(tail))
      ensures ok ==> |s| < |old(s)|
      ensures !ok ==> s == ""
      ensures removeEmpty && NoSelfOverlap(sep) ==> View() == old(View())
    {
      ghost var t, b, tl := s, buf, tail;
      var item;
      item, ok := Last();
      if removeEmpty && NoSelfOverlap(sep) {
        LastView(b, head, tl, t, sep, item, ok, s);
      }
    }

    /**
     * ElementAt: the 1-based field `idx`, or field `-idx` from the end when
     * `idx` is negative, cutting one field further than needed; once the line
     * is exhausted an index past one end is answered from the other end's
     * keys and remembered under key `idx`.
     */
    method ElementAt(idx: int) returns (r: Result<string>)
      requires Valid()
      modifies this
      ensures Valid()
      ensures cache == old(cache)
      ensures r.Err? ==> r.error == IndexOutOfRange
      ensures idx == 0 ==> r.Err?
      ensures idx == 0 || 0 < idx <= old(head) || old(tail) <= idx < 0 ==>
        buf == old(buf) && head == old(head) && tail == old(tail) && s == old(s)
      ensures 0 < idx <= old(head) || old(tail) <= idx < 0 ==> r == Ok(old(buf)[idx])
      ensures idx > 0 ==> tail == old(tail)
      ensures idx < 0 ==> head == old(head)
      ensures idx > old(head) ==> head <= idx + 1
      ensures idx < old(tail) ==> tail >= idx - 1
      ensures r.Ok? ==> idx in buf && buf[idx] == r.value
      ensures idx > 0 ==> (r.Ok? <==> idx <= |View()|) && (r.Ok? ==> r.value == View()[idx - 1])
      ensures idx < 0 ==> (r.Ok? <==> -idx <= |View()|) && (r.Ok? ==> r.value == View()[|View()| + idx])
      ensures removeEmpty && idx >= 0 ==> View() == old(View())
      ensures removeEmpty && NoSelfOverlap(sep) ==> View() == old(View())
    {
      if idx == 0 {
        return Err(IndexOutOfRange);
      }
      if idx > 0 {
        r := ElementAtFront(idx);
      } else {
        r := ElementAtBack(idx);
      }
    }

    /** The positive half of ElementAt. */
    method ElementAtFront(idx: int) returns (r: Result<string>)
      requires Valid() && idx > 0
      modifies this
      ensures Valid()
      ensures cache == old(cache) && tail == old(tail)
      ensures r.Err? ==> r.error == IndexOutOfRange
      ensures idx <= old(head) ==> buf == old(buf) && head == old(head) && s == old(s) && r == Ok(old(buf)[idx])
      ensures idx > old(head) ==> head <= idx + 1
      ensures r.Ok? ==> idx in buf && buf[idx] == r.value
      ensures r.Ok? <==> idx <= |View()|
      ensures r.Ok? ==> r.value == View()[idx - 1]
      ensures removeEmpty ==> View() == old(View())
    {
      if head >= idx {
        FrontField(buf, head, tail, Pieces(s, sep, removeEmpty), idx);
        return Ok(buf[idx]);
      }
      CutFrontTo(idx);
      r := LookupFront(idx);
    }

    /** The positive loop of ElementAt: call Next while it succeeds and `head` has not passed `idx`. */
    method CutFrontTo(idx: int)
      requires Valid() && idx > head
      modifies this
      ensures Valid()
      ensures tail == old(tail) && cache == old(cache)
      ensures old(head) <= head <= idx + 1
      ensures head < idx ==> s == ""
      ensures removeEmpty ==> View() == old(View())
    {
      var ok := NextStep();
      while ok && head <= idx
        invariant Valid()
        invariant tail == old(tail) && cache == old(cache)
        invariant old(head) <= head <= idx + 1
        invariant !ok ==> s == ""
        invariant removeEmpty ==> View() == old(View())
        decreases |s| + (if ok then 1 else 0)
      {
        ok := NextStep();
      }
    }

    /** The positive lookup after the loop: the front key, else the cross-end key, remembered. */
    method LookupFront(idx: int) returns (r: Result<string>)
      requires Valid() && idx > 0 && (idx > head ==> s == "")
      modifies this
      ensures Valid()
      ensures head == old(head) && tail == old(tail) && s == old(s) && cache == old(cache)
      ensures r.Err? ==> r.error == IndexOutOfRange
      ensures r.Ok? ==> idx in buf && buf[idx] == r.value
      ensures r.Ok? <==> idx <= |View()|
      ensures r.Ok? ==> r.value == View()[idx - 1]
      ensures View() == old(View())
    {
      ghost var v := View();
      FrontLookupField(buf, head, tail, Pieces(s, sep, removeEmpty), idx);
      if head >= idx {
        SpanAt(buf, 1, head + 1);
        return Ok(buf[idx]);
      }
      if head + -tail >= idx {
        var j := idx - head + tail - 1;
        if j in buf {
          var x := buf[j];
          StoreOutside(buf, head, tail, idx, x);
          buf := buf[idx := x];
          assert View() == v;
          return Ok(x);
        }
      }
      return Err(IndexOutOfRange);
    }

    /** The negative half of ElementAt, with the bounded cross-end lookup. */
    method ElementAtBack(idx: int) returns (r: Result<string>)
      requires Valid() && idx < 0
      modifies this
      ensures Valid()
      ensures cache == old(cache) && head == old(head)
      ensures r.Err? ==> r.error == IndexOutOfRange
      ensures old(tail) <= idx ==> buf == old(buf) && tail == old(tail) && s == old(s) && r == Ok(old(buf)[idx])
      ensures idx < old(tail) ==> tail >= idx - 1
      ensures r.Ok? ==> idx in buf && buf[idx] == r.value
      ensures r.Ok? <==> -idx <= |View()|
      ensures r.Ok? ==> r.value == View()[|View()| + idx]
      ensures removeEmpty && NoSelfOverlap(sep) ==> View() == old(View())
    {
      if tail <= idx {
        BackField(buf, head, tail, Pieces(s, sep, removeEmpty), idx);
        return Ok(buf[idx]);
      }
      CutBackTo(idx);
      r := LookupBack(idx);
    }

    /** The negative loop of ElementAt: call Last while it succeeds and `tail` has not passed `idx`. */
    method CutBackTo(idx: int)
      requires Valid() && idx < tail
      modifies this
      ensures Valid()
      ensures head == old(head) && cache == old(cache)
      ensures idx - 1 <= tail <= old(tail)
      ensures idx < tail ==> s == ""
      ensures removeEmpty && NoSelfOverlap(sep) ==> View() == old(View())
    {
      var ok := LastStep();
      while ok && tail >= idx
        invariant Valid()
        invariant head == old(head) && cache == old(cache)
        invariant idx - 1 <= tail <= old(tail)
        invariant !ok ==> s == ""
        invariant removeEmpty && NoSelfOverlap(sep) ==> View() == old(View())
        decreases |s| + (if ok then 1 else 0)
      {
        ok := LastStep();
      }
    }

    /** The negative lookup after the loop: the back key, else the bounded cross-end lookup, remembered. */
    method LookupBack(idx: int) returns (r: Result<string>)
      requires Valid() && idx < 0 && (idx < tail ==> s == "")
      modifies this
      ensures Valid()
      ensures head == old(head) && tail == old(tail) && s == old(s) && cache == old(cache)
      ensures r.Err? ==> r.error == IndexOutOfRange
      ensures r.Ok? ==> idx in buf && buf[idx] == r.value
      ensures r.Ok? <==> -idx <= |View()|
      ensures r.Ok? ==> r.value == View()[|View()| + idx]
      ensures View() == old(View())
    {
      if tail <= idx {
        BackField(buf, head, tail, Pieces(s, sep, removeEmpty), idx);
        return Ok(buf[idx]);
      }
      ghost var v := View();
      CrossEndField(buf, head, tail, idx);
      match CrossEnd(buf, head, tail, idx)
      case Some(x) =>
        StoreOutside(buf, head, tail, idx, x);
        buf := buf[idx := x];
        assert View() == v;
        return Ok(x);
      case None =>
        return Err(IndexOutOfRange);
    }

    /**
     * ToArray: the front keys, the unsplit middle split (and filtered), the
     * back keys in ascending order; computed once and cached until Reset.
     * The slice is made with length head, so it is never nil.
     */
    method ToArray() returns (r: seq<string>)
      requires Valid()
      modifies this
      ensures Valid()
      ensures buf == old(buf) && head == old(head) && tail == old(tail) && s == old(s)
      ensures old(cache).Some? ==> r == old(cache).value && cache == old(cache)
      ensures old(cache).None? ==> r == View() && cache == Some(r)
    {
      if cache.Some? {
        return cache.value;
      }
      var a := CopySpan(buf, head);
      if s != "" {
        var b := Split(s, sep);
        if removeEmpty {
          b := RemoveEmpty(b);
        }
        a := a + b;
      }
      a := AppendKeys(a, buf, tail, 0);
      cache := Some(a);
      r := a;
    }
  }

  /** ToArray's last loop: append the values under keys lo..hi-1 in ascending key order. */
  method AppendKeys(a: seq<string>, buf: map<int, string>, lo: int, hi: int) returns (r: seq<string>)
    requires lo <= hi && forall k :: lo <= k < hi ==> k in buf
    ensures r == a + Span(buf, lo, hi)
  {
    r := a;
    var k := lo;
    while k < hi
      invariant lo <= k <= hi
      invariant r == a + Span(buf, lo, k)
    {
      r := r + [buf[k]];
      k := k + 1;
    }
  }

  /**
   * The trace behind CrossEndAsWrittenOvershoots, run through the modelled
   * iterator: after the constructor and one Last, the map and cursors are
   * those of the counterexample and ToArray reports one field.
   */
  method OvershootTrace() returns (buf: map<int, string>, head: int, tail: int, fields: nat)
    ensures buf == map[0 := "a", -1 := "a"] && head == 0 && tail == -1 && fields == 1
    ensures CrossEndAsWritten(buf, head, tail, -2).Some? && CrossEnd(buf, head, tail, -2).None?
  {
    var it := new Iterator("a", " ", false);
    LastIndexSpec("a", " ");
    assert !HasAt("a", " ", 0);
    var item, ok := it.Last();
    buf, head, tail := it.buf, it.head, it.tail;
    var all := it.ToArray();
    fields := |all|;
  }

  /** The regular-expression iterator, forward direction only (`tail` stays 0). */
  class RegexpIterator {
    /** The unsplit rest of the line; the reader always reads exactly this text. */
    var s: string
    var head: nat
    var buf: map<int, string>
    const engine: Regex.Engine
    const re: Regex.Regexp
    const removeEmpty: bool
    /** The slice ToArray caches; None is Go's nil slice. */
    var cache: Option<seq<string>>

    ghost predicate Valid()
      reads this
    {
      forall k :: 1 <= k <= head ==> k in buf
    }

    /** The rest of the line cuts to an end: no match met on the way is empty at its start. */
    ghost predicate Ends()
      reads this
    {
      CutsEnd(engine, re, s)
    }

    ghost function View(): seq<string>
      reads this
      requires Valid() && Ends()
    {
      Span(buf, 1, head + 1) + Cuts(engine, re, s, removeEmpty)
    }

    /** NewRegexpIterator. */
    constructor (s: string, re: Regex.Regexp, removeEmpty: bool, engine: Regex.Engine)
      ensures Valid()
      ensures this.re == re && this.removeEmpty == removeEmpty && this.engine == engine
      ensures this.s == s && head == 0 && buf == map[] && cache == None
      ensures Ends() ==> View() == Cuts(engine, re, s, removeEmpty)
    {
      this.s := s;
      head := 0;
      buf := map[];
      this.re := re;
      this.removeEmpty := removeEmpty;
      this.engine := engine;
      cache := None;
    }

    /** Reset: install a new line; stale map entries stay but lie above `head`. */
    method Reset(s: string)
      requires Valid()
      modifies this
      ensures Valid()
      ensures this.s == s && head == 0 && buf == old(buf) && cache == None
      ensures Ends() ==> View() == Cuts(engine, re, s, removeEmpty)
    {
      this.s := s;
      head := 0;
      cache := None;
    }

    /**
     * Next: cut the text before the leftmost match and store it under key
     * head + 1. With removeEmpty an empty field is skipped by calling Next
     * again, which returns only when the skipping ends.
     */
    method Next() returns (item: string, ok: bool)
      requires Valid() && (removeEmpty ==> SkipEnds(engine, re, s))
      modifies this
      ensures Valid()
      ensures RegexCut(engine, re, old(s), removeEmpty) == Cut(item, ok, s)
      ensures head == (if ok then old(head) + 1 else old(head))
      ensures buf == (if ok then old(buf)[head := item] else old(buf))
      ensures cache == old(cache)
      decreases |s|
    {
      var t := s;
      if t == "" {
        return "", false;
      }
      var m := Regex.Find(engine, re, t);
      if m.None? {
        head := head + 1;
        buf := buf[head := t];
        s := "";
        return t, true;
      }
      var a := t[..m.value.0];
      s := t[m.value.1..];
      if removeEmpty && a == "" {
        item, ok := Next();
        return;
      }
      head := head + 1;
      buf := buf[head := a];
      return a, true;
    }

    /** Next, with the view it leaves unchanged when the cuts end. */
    method NextKeepingView() returns (ok: bool)
      requires Valid() && (removeEmpty ==> Ends())
      modifies this
      ensures Valid() && cache == old(cache)
      ensures ok ==> head == old(head) + 1 && buf == old(buf)[head := buf[head]]
      ensures !ok ==> head == old(head) && buf == old(buf) && s == ""
      ensures old(Ends()) ==> Ends() && (ok ==> |s| < |old(s)|) && View() == old(View())
    {
      ghost var t, b, h, ends := s, buf, head, Ends();
      var item;
      item, ok := Next();
      if ends {
        RegexNextView(engine, re, b, h, t, removeEmpty, item, ok, s);
      }
    }

    /**
     * ElementAt for a non-negative index: served from the map when already
     * cut, otherwise cutting until `head` passes `idx`, one field further
     * than needed.
     */
    method ElementAt(idx: int) returns (r: Result<string>)
      requires Valid() && idx >= 0 && (removeEmpty ==> Ends())
      modifies this
      ensures Valid()
      ensures cache == old(cache)
      ensures r.Err? ==> r.error == IndexOutOfRange
      ensures idx == 0 ==> r.Err?
      ensures idx <= old(head) ==> head == old(head) && buf == old(buf) && s == old(s)
      ensures 0 < idx <= old(head) ==> r == Ok(old(buf)[idx])
      ensures old(head) <= head && (idx > old(head) ==> head <= idx + 1)
      ensures forall k :: 1 <= k <= old(head) ==> buf[k] == old(buf)[k]
      ensures r.Ok? ==> 1 <= idx <= head && r.value == buf[idx]
      ensures old(Ends()) ==> (Ends() && View() == old(View()) &&
        (idx > 0 ==> (r.Ok? <==> idx <= |View()|) && (r.Ok? ==> r.value == View()[idx - 1])))
    {
      if idx == 0 {
        return Err(IndexOutOfRange);
      }
      if head >= idx {
        SpanAt(buf, 1, head + 1);
        return Ok(buf[idx]);
      }
      CutTo(idx);
      if head >= idx {
        SpanAt(buf, 1, head + 1);
        return Ok(buf[idx]);
      }
      // The cross-end lookup `head + (-tail) >= idx` needs tail < 0, which the forward path never produces.
      return Err(IndexOutOfRange);
    }

    /**
     * ElementAt's loop: cut forward until head passes idx or Next reports
     * no field. It ends after at most idx + 1 fields even when the cuts
     * themselves never end.
     */
    method CutTo(idx: int)
      requires Valid() && 0 <= head < idx && (removeEmpty ==> Ends())
      modifies this
      ensures Valid() && cache == old(cache)
      ensures old(head) <= head <= idx + 1
      ensures head <= idx ==> s == ""
      ensures forall k :: 1 <= k <= old(head) ==> buf[k] == old(buf)[k]
      ensures old(Ends()) ==> Ends() && View() == old(View())
    {
      var ok := NextKeepingView();
      while ok && head <= idx
        invariant Valid()
        invariant cache == old(cache)
        invariant removeEmpty ==> Ends()
        invariant old(head) <= head <= idx + 1
        invariant forall k :: 1 <= k <= old(head) ==> buf[k] == old(buf)[k]
        invariant !ok ==> s == ""
        invariant old(Ends()) ==> Ends() && View() == old(View())
        decreases idx + 1 - head + (if ok then 1 else 0)
      {
        ok := NextKeepingView();
      }
    }

    /** ToArray's first loop: call Next until it reports no field. */
    method Drain()
      requires Valid() && Ends()
      modifies this
      ensures Valid() && Ends()
      ensures cache == old(cache) && s == "" && View() == old(View())
    {
      var ok := NextKeepingView();
      while ok
        invariant Valid() && Ends()
        invariant cache == old(cache)
        invariant !ok ==> s == ""
        invariant View() == old(View())
        decreases |s| + (if ok then 1 else 0)
      {
        ok := NextKeepingView();
      }
    }

    /**
     * ToArray: cut to the end and copy keys 1..head into a fresh slice,
     * cached. Without a cached slice the cuts must end: otherwise Go's
     * loop over Next never finishes.
     */
    method ToArray() returns (r: seq<string>)
      requires Valid() && (cache.None? ==> Ends())
      modifies this
      ensures Valid()
      ensures old(cache).Some? ==> r == old(cache).value && cache == old(cache) && s == old(s)
      ensures old(cache).None? ==> r == old(View()) && cache == Some(r) && s == "" && |r| == head
    {
      if cache.Some? {
        return cache.value;
      }
      Drain();
      r := CopySpan(buf, head);
      cache := Some(r);
    }
  }
}
