/**
 * internal/iterator/iterator.go: the line cursors of the newest generation.
 * `Iterator` cuts a line lazily at a literal separator, from the front
 * (`Next`) into `front` and from the back (`Last`) into `back`, keeping the
 * unsplit middle in `remaining`; `RegexpIterator` cuts forward at the
 * matches of a regular expression into a map keyed 1..head.
 */
module InternalIterator {
  import opened Wrappers
  import opened GoStrings
  import opened Fields
  import opened LazySplit
  import Regex
  import InternalOption

  const IndexOutOfRange: string := "index out of range"

  /** The iterator NewIEnumerable chooses, with the arguments it passes. */
  datatype Strategy =
    | PreSplit(sep: string, removeEmpty: bool)
    | PreSplitByRegexp(re: Regex.Regexp, removeEmpty: bool)
    | RegexpSplit(re: Regex.Regexp, removeEmpty: bool)
    | Lazy(sep: string, removeEmpty: bool)

  /**
   * NewIEnumerable: CSV/TSV input is split by the record reader, so each row
   * comes pre-split on the comma rune; otherwise the regular-expression flag
   * and the split-before flag pick one of four strategies.
   */
  function NewIEnumerable(opt: InternalOption.Option, e: Regex.Engine): (r: Result<Strategy>)
    ensures r.Err? <==> (!InternalOption.IsXsv(opt.xsv).0 && opt.delimiter.useRegexp &&
      e.compileError(opt.delimiter.inputDelimiter).Some?)
    ensures r.Ok? ==> r.value.removeEmpty == opt.delimiter.removeEmpty
    ensures InternalOption.IsXsv(opt.xsv).0 ==> r == Ok(PreSplit([InternalOption.IsXsv(opt.xsv).1], opt.delimiter.removeEmpty))
    ensures r.Ok? && !InternalOption.IsXsv(opt.xsv).0 ==>
      (r.value.PreSplit? || r.value.PreSplitByRegexp? <==> opt.delimiter.splitBefore) &&
      (r.value.PreSplitByRegexp? || r.value.RegexpSplit? <==> opt.delimiter.useRegexp)
    ensures r.Ok? && (r.value.PreSplitByRegexp? || r.value.RegexpSplit?) ==>
      r.value.re.pattern == opt.delimiter.inputDelimiter
    ensures r.Ok? && !InternalOption.IsXsv(opt.xsv).0 && (r.value.PreSplit? || r.value.Lazy?) ==>
      r.value.sep == opt.delimiter.inputDelimiter
  {
    var (xsv, comma) := InternalOption.IsXsv(opt.xsv);
    var d := opt.delimiter;
    if xsv then Ok(PreSplit([comma], d.removeEmpty))
    else if d.useRegexp then
      match Regex.Compile(e, d.inputDelimiter)
      case Err(msg) => Err(msg)
      case Ok(re) => if d.splitBefore then Ok(PreSplitByRegexp(re, d.removeEmpty)) else Ok(RegexpSplit(re, d.removeEmpty))
    else if d.splitBefore then Ok(PreSplit(d.inputDelimiter, d.removeEmpty))
    else Ok(Lazy(d.inputDelimiter, d.removeEmpty))
  }

  /** The literal-separator iterator. */
  class Iterator {
    /** Fields cut from the front; front[0] is field 1. */
    var front: seq<string>
    /** Fields cut from the back; back[0] is the last field. */
    var back: seq<string>
    /** The unsplit middle of the line. */
    var remaining: string
    const sep: string
    const removeEmpty: bool
    /** The slice ToArray caches; None is Go's nil slice. */
    var cache: Option<seq<string>>

    ghost predicate Valid()
      reads this
    {
      sep != "" && (removeEmpty ==> NoEmpty(front) && NoEmpty(back))
    }

    /** The fields this iterator presents: front, the unsplit middle split, back reversed. */
    ghost function View(): seq<string>
      reads this
      requires sep != ""
    {
      front + Pieces(remaining, sep, removeEmpty) + Reverse(back)
    }

    /** NewIterator. */
    constructor (s: string, sep: string, removeEmpty: bool)
      requires sep != ""
      ensures Valid()
      ensures this.sep == sep && this.removeEmpty == removeEmpty
      ensures front == [] && back == [] && remaining == s && cache == None
      ensures View() == Pieces(s, sep, removeEmpty)
    {
      front := [];
      back := [];
      remaining := s;
      this.sep := sep;
      this.removeEmpty := removeEmpty;
      cache := None;
    }

    /** Reset: install a new line; the separator and the filter flag are kept. */
    method Reset(s: string)
      requires Valid()
      modifies this
      ensures Valid()
      ensures remaining == s && front == [] && back == [] && cache == None
      ensures View() == Pieces(s, sep, removeEmpty)
    {
      remaining := s;
      front := [];
      back := [];
      cache := None;
    }

    /**
     * Next: cut the next field off the front into `front`; on empty
     * remaining text report no field and change nothing.
     */
    method Next() returns (item: string, ok: bool)
      requires Valid()
      modifies this
      ensures Valid()
      ensures FrontCut(old(remaining), sep, removeEmpty) == Cut(item, ok, remaining)
      ensures front == (if ok then old(front) + [item] else old(front))
      ensures back == old(back) && cache == old(cache)
      decreases |remaining|
    {
      var s := remaining;
      if s == "" {
        return "", false;
      }
      var m := Index(s, sep);
      if m < 0 {
        front := front + [s];
        remaining := "";
        return s, true;
      }
      var a := s[..m];
      remaining := s[m + |sep|..];
      if removeEmpty && a == "" {
        item, ok := Next();
        return;
      }
      front := front + [a];
      return a, true;
    }

    /**
     * Last: cut the next field off the back into `back`; on empty
     * remaining text report no field and change nothing.
     */
    method Last() returns (item: string, ok: bool)
      requires Valid()
      modifies this
      ensures Valid()
      ensures BackCut(old(remaining), sep, removeEmpty) == Cut(item, ok, remaining)
      ensures back == (if ok then old(back) + [item] else old(back))
      ensures front == old(front) && cache == old(cache)
      decreases |remaining|
    {
      var s := remaining;
      if s == "" {
        return "", false;
      }
      var m := LastIndex(s, sep);
      if m < 0 {
        back := back + [s];
        remaining := "";
        return s, true;
      }
      var a := s[m + |sep|..];
      remaining := s[..m];
      if removeEmpty && a == "" {
        item, ok := Last();
        return;
      }
      back := back + [a];
      return a, true;
    }

    /**
     * ElementAt: the 1-based field `idx`, or field `-idx` from the end when
     * `idx` is negative, cutting only as far as needed.
     */
    method ElementAt(idx: int) returns (r: Result<string>)
      requires Valid()
      modifies this
      ensures Valid()
      ensures cache == old(cache)
      ensures r.Err? ==> r.error == IndexOutOfRange
      ensures idx == 0 ==> r.Err?
      ensures idx == 0 || 0 < idx <= |old(front)| || 0 < -idx <= |old(back)| ==>
        front == old(front) && back == old(back) && remaining == old(remaining)
      ensures 0 < idx <= |old(front)| ==> r == Ok(old(front)[idx - 1])
      ensures 0 < -idx <= |old(back)| ==> r == Ok(old(back)[-idx - 1])
      ensures idx > 0 ==> back == old(back)
      ensures idx < 0 ==> front == old(front)
      ensures idx > |old(front)| ==> |front| <= idx && (|front| < idx ==> remaining == "")
      ensures -idx > |old(back)| ==> |back| <= -idx && (|back| < -idx ==> remaining == "")
      ensures idx > 0 ==> (r.Ok? <==> idx <= |View()|) && (r.Ok? ==> r.value == View()[idx - 1])
      ensures idx < 0 ==> (r.Ok? <==> -idx <= |View()|) && (r.Ok? ==> r.value == View()[|View()| + idx])
      ensures removeEmpty && idx >= 0 ==> View() == old(View())
      ensures removeEmpty && NoSelfOverlap(sep) ==> View() == old(View())
    {
      if idx == 0 {
        return Err(IndexOutOfRange);
      }
      if idx > 0 {
        r := FrontElement(idx);
      } else {
        r := BackElement(-idx);
      }
    }

    /** ElementAt for a positive index: from `front`, cutting from the front as far as needed. */
    method FrontElement(idx: int) returns (r: Result<string>)
      requires Valid() && idx > 0
      modifies this
      ensures Valid()
      ensures cache == old(cache) && back == old(back)
      ensures r.Err? ==> r.error == IndexOutOfRange
      ensures idx <= |old(front)| ==> front == old(front) && remaining == old(remaining) && r == Ok(old(front)[idx - 1])
      ensures idx > |old(front)| ==> |front| <= idx && (|front| < idx ==> remaining == "")
      ensures (r.Ok? <==> idx <= |View()|) && (r.Ok? ==> r.value == View()[idx - 1])
      ensures removeEmpty ==> View() == old(View())
    {
      if idx <= |front| {
        return Ok(front[idx - 1]);
      }
      var more := true;
      while more && |front| < idx
        invariant Valid()
        invariant back == old(back) && cache == old(cache)
        invariant |front| <= idx
        invariant !more ==> remaining == ""
        invariant removeEmpty ==> View() == old(View())
        decreases |remaining| + (if more then 1 else 0)
      {
        ghost var s, f := remaining, front;
        var item, ok := Next();
        if removeEmpty {
          FrontCutView(f, s, sep, back);
        }
        more := ok;
      }
      if idx <= |front| {
        return Ok(front[idx - 1]);
      }
      var total := |front| + |back|;
      if idx <= total {
        var backIdx := idx - |front| - 1;
        return Ok(back[|back| - 1 - backIdx]);
      }
      return Err(IndexOutOfRange);
    }

    /** ElementAt for a negative index `-absIdx`: from `back`, cutting from the back as far as needed. */
    method BackElement(absIdx: int) returns (r: Result<string>)
      requires Valid() && absIdx > 0
      modifies this
      ensures Valid()
      ensures cache == old(cache) && front == old(front)
      ensures r.Err? ==> r.error == IndexOutOfRange
      ensures absIdx <= |old(back)| ==> back == old(back) && remaining == old(remaining) && r == Ok(old(back)[absIdx - 1])
      ensures absIdx > |old(back)| ==> |back| <= absIdx && (|back| < absIdx ==> remaining == "")
      ensures (r.Ok? <==> absIdx <= |View()|) && (r.Ok? ==> r.value == View()[|View()| - absIdx])
      ensures removeEmpty && NoSelfOverlap(sep) ==> View() == old(View())
    {
      if absIdx <= |back| {
        return Ok(back[absIdx - 1]);
      }
      var more := true;
      while more && |back| < absIdx
        invariant Valid()
        invariant front == old(front) && cache == old(cache)
        invariant |back| <= absIdx
        invariant !more ==> remaining == ""
        invariant removeEmpty && NoSelfOverlap(sep) ==> View() == old(View())
        decreases |remaining| + (if more then 1 else 0)
      {
        ghost var s, b := remaining, back;
        var item, ok := Last();
        if removeEmpty && NoSelfOverlap(sep) {
          BackCutView(front, s, sep, b);
        }
        more := ok;
      }
      if absIdx <= |back| {
        return Ok(back[absIdx - 1]);
      }
      var total := |front| + |back|;
      if absIdx <= total {
        var frontIdx := |front| - (absIdx - |back|);
        if frontIdx >= 0 && frontIdx < |front| {
          return Ok(front[frontIdx]);
        }
      }
      return Err(IndexOutOfRange);
    }

    /**
     * ToArray: front, the unsplit middle split (and filtered), back reversed;
     * computed once and cached until Reset. An empty result stays nil and is
     * therefore recomputed.
     */
    method ToArray() returns (r: seq<string>)
      requires Valid()
      modifies this
      ensures Valid()
      ensures front == old(front) && back == old(back) && remaining == old(remaining)
      ensures old(cache).Some? ==> r == old(cache).value && cache == old(cache)
      ensures old(cache).None? ==> r == View() && cache == (if r == [] then None else Some(r))
    {
      if cache.Some? {
        return cache.value;
      }
      var a: seq<string> := [];
      if |front| > 0 {
        a := front;
      }
      if remaining != "" {
        var b := Split(remaining, sep);
        if removeEmpty {
          b := RemoveEmpty(b);
        }
        a := a + b;
      }
      a := AppendReversed(a, back);
      cache := if a == [] then None else Some(a);
      r := a;
    }
  }

  /** ToArray's last loop: append the fields of `b` from the last to the first. */
  method AppendReversed(a: seq<string>, b: seq<string>) returns (r: seq<string>)
    ensures r == a + Reverse(b)
  {
    r := a;
    assert b[|b|..] == [] && Reverse<string>([]) == [];
    assert r == a + Reverse(b[|b|..]);
    var j := |b| - 1;
    while j >= 0
      invariant -1 <= j < |b|
      invariant r == a + Reverse(b[j + 1..])
    {
      ReversedStep(a, b, j);
      r := r + [b[j]];
      j := j - 1;
    }
    assert b[0..] == b;
    assert r == a + Reverse(b[0..]);
  }

  /** One step of AppendReversed: appending b[j] extends the reversed suffix by one field. */
  lemma {:induction false} ReversedStep(a: seq<string>, b: seq<string>, j: int)
    requires 0 <= j < |b|
    ensures a + Reverse(b[j + 1..]) + [b[j]] == a + Reverse(b[j..])
  {
    var t := b[j..];
    assert t[1..] == b[j + 1..] && t[0] == b[j];
    assert Reverse(t) == Reverse(b[j + 1..]) + [b[j]];
  }

  /** A filtered front cut moves one field from the middle to `front`, leaving the view unchanged. */
  lemma {:induction false} FrontCutView(f: seq<string>, s: string, sep: string, b: seq<string>)
    requires sep != ""
    ensures var r := FrontCut(s, sep, true);
      f + Pieces(s, sep, true) + Reverse(b) ==
      (if r.ok then f + [r.item] else f) + Pieces(r.rest, sep, true) + Reverse(b)
  {
    FrontCutPieces(s, sep);
    var r := FrontCut(s, sep, true);
    var p, rb := Pieces(r.rest, sep, true), Reverse(b);
    if r.ok {
      assert f + ([r.item] + p) + rb == (f + [r.item]) + p + rb;
    } else {
      assert [] + p == p;
    }
  }

  /** A filtered back cut moves one field from the middle to `back`, leaving the view unchanged. */
  lemma {:induction false} BackCutView(f: seq<string>, s: string, sep: string, b: seq<string>)
    requires sep != "" && NoSelfOverlap(sep)
    ensures var r := BackCut(s, sep, true);
      f + Pieces(s, sep, true) + Reverse(b) ==
      f + Pieces(r.rest, sep, true) + Reverse(if r.ok then b + [r.item] else b)
  {
    BackCutPieces(s, sep);
    var r := BackCut(s, sep, true);
    if r.ok {
      ReverseSnoc(b, r.item);
    }
  }

  /**
   * With empty fields removed, a positive ElementAt agrees with the ToArray
   * that follows it.
   */
  method ElementAtAgreesWithToArray(it: Iterator, idx: int) returns (x: Result<string>, all: seq<string>)
    requires it.Valid() && it.removeEmpty && it.cache.None? && idx > 0
    modifies it
    ensures x.Ok? <==> idx <= |all|
    ensures x.Ok? ==> x.value == all[idx - 1]
    ensures all == old(it.View())
  {
    x := it.ElementAt(idx);
    all := it.ToArray();
  }

  /** The regular-expression iterator, forward direction only (`tail` stays 0). */
  class RegexpIterator {
    /** The unsplit rest of the line; the reader always reads exactly this text. */
    var s: string
    var head: nat
    var buf: map<int, string>
    const engine: Regex.Engine
    const re: Regex.Regexp
    const removeEmpty: bool
    /** The slice ToArray caches; None is Go's nil slice. */
    var cache: Option<seq<string>>

    ghost predicate Valid()
      reads this
    {
      forall k :: 1 <= k <= head ==> k in buf
    }

    /** The rest of the line cuts to an end: no match met on the way is empty at its start. */
    ghost predicate Ends()
      reads this
    {
      CutsEnd(engine, re, s)
    }

    ghost function View(): seq<string>
      reads this
      requires Valid() && Ends()
    {
      Span(buf, 1, head + 1) + Cuts(engine, re, s, removeEmpty)
    }

    /** NewRegexpIterator. */
    constructor (s: string, re: Regex.Regexp, removeEmpty: bool, engine: Regex.Engine)
      ensures Valid()
      ensures this.re == re && this.removeEmpty == removeEmpty && this.engine == engine
      ensures this.s == s && head == 0 && buf == map[] && cache == None
      ensures Ends() ==> View() == Cuts(engine, re, s, removeEmpty)
    {
      this.s := s;
      head := 0;
      buf := map[];
      this.re := re;
      this.removeEmpty := removeEmpty;
      this.engine := engine;
      cache := None;
    }

    /** Reset: install a new line; stale map entries stay but lie above `head`. */
    method Reset(s: string)
      requires Valid()
      modifies this
      ensures Valid()
      ensures this.s == s && head == 0 && buf == old(buf) && cache == None
      ensures Ends() ==> View() == Cuts(engine, re, s, removeEmpty)
    {
      this.s := s;
      head := 0;
      cache := None;
    }

    /**
     * Next: cut the text before the leftmost match and store it under key
     * head + 1. With removeEmpty an empty field is skipped by calling Next
     * again, which returns only when the skipping ends.
     */
    method Next() returns (item: string, ok: bool)
      requires Valid() && (removeEmpty ==> SkipEnds(engine, re, s))
      modifies this
      ensures Valid()
      ensures RegexCut(engine, re, old(s), removeEmpty) == Cut(item, ok, s)
      ensures head == (if ok then old(head) + 1 else old(head))
      ensures buf == (if ok then old(buf)[head := item] else old(buf))
      ensures cache == old(cache)
      decreases |s|
    {
      var t := s;
      if t == "" {
        return "", false;
      }
      var m := Regex.Find(engine, re, t);
      if m.None? {
        head := head + 1;
        buf := buf[head := t];
        s := "";
        return t, true;
      }
      var a := t[..m.value.0];
      s := t[m.value.1..];
      if removeEmpty && a == "" {
        item, ok := Next();
        return;
      }
      head := head + 1;
      buf := buf[head := a];
      return a, true;
    }

    /** Next, with the view it leaves unchanged when the cuts end. */
    method NextKeepingView() returns (item: string, ok: bool)
      requires Valid() && (removeEmpty ==> Ends())
      modifies this
      ensures Valid() && cache == old(cache)
      ensures head == (if ok then old(head) + 1 else old(head))
      ensures buf == (if ok then old(buf)[head := item] else old(buf))
      ensures !ok ==> s == ""
      ensures old(Ends()) ==> Ends() && (ok ==> |s| < |old(s)|) && View() == old(View())
    {
      ghost var t, b, h, ends := s, buf, head, Ends();
      item, ok := Next();
      if ends {
        RegexNextView(engine, re, b, h, t, removeEmpty, item, ok, s);
      }
    }

    /**
     * ElementAt for a non-negative index: served from the map when already
     * cut, otherwise cutting until `head` passes `idx`, one field further
     * than needed.
     */
    method ElementAt(idx: int) returns (r: Result<string>)
      requires Valid() && idx >= 0 && (removeEmpty ==> Ends())
      modifies this
      ensures Valid()
      ensures cache == old(cache)
      ensures r.Err? ==> r.error == IndexOutOfRange
      ensures idx == 0 ==> r.Err?
      ensures idx <= old(head) ==> head == old(head) && buf == old(buf) && s == old(s)
      ensures 0 < idx <= old(head) ==> r == Ok(old(buf)[idx])
      ensures old(head) <= head && (idx > old(head) ==> head <= idx + 1)
      ensures forall k :: 1 <= k <= old(head) ==> buf[k] == old(buf)[k]
      ensures r.Ok? ==> 1 <= idx <= head && r.value == buf[idx]
      ensures old(Ends()) ==> (Ends() && View() == old(View()) &&
        (idx > 0 ==> (r.Ok? <==> idx <= |View()|) && (r.Ok? ==> r.value == View()[idx - 1])))
    {
      if idx == 0 {
        return Err(IndexOutOfRange);
      }
      if head >= idx {
        SpanAt(buf, 1, head + 1);
        return Ok(buf[idx]);
      }
      CutTo(idx);
      if head >= idx {
        SpanAt(buf, 1, head + 1);
        return Ok(buf[idx]);
      }
      // The cross-end lookup `head + (-tail) >= idx` needs tail < 0, which the forward path never produces.
      return Err(IndexOutOfRange);
    }

    /**
     * ElementAt's loop: cut forward until head passes idx or Next reports
     * no field. It ends after at most idx + 1 fields even when the cuts
     * themselves never end.
     */
    method CutTo(idx: int)
      requires Valid() && 0 <= head < idx && (removeEmpty ==> Ends())
      modifies this
      ensures Valid() && cache == old(cache)
      ensures old(head) <= head <= idx + 1
      ensures head <= idx ==> s == ""
      ensures forall k :: 1 <= k <= old(head) ==> buf[k] == old(buf)[k]
      ensures old(Ends()) ==> Ends() && View() == old(View())
    {
      var item, ok := NextKeepingView();
      while ok && head <= idx
        invariant Valid()
        invariant cache == old(cache)
        invariant removeEmpty ==> Ends()
        invariant old(head) <= head <= idx + 1
        invariant forall k :: 1 <= k <= old(head) ==> buf[k] == old(buf)[k]
        invariant !ok ==> s == ""
        invariant old(Ends()) ==> Ends() && View() == old(View())
        decreases idx + 1 - head + (if ok then 1 else 0)
      {
        item, ok := NextKeepingView();
      }
    }

    /** ToArray's first loop: call Next until it reports no field. */
    method Drain()
      requires Valid() && Ends()
      modifies this
      ensures Valid() && Ends()
      ensures cache == old(cache) && s == "" && View() == old(View())
    {
      var item, ok := NextKeepingView();
      while ok
        invariant Valid() && Ends()
        invariant cache == old(cache)
        invariant !ok ==> s == ""
        invariant View() == old(View())
        decreases |s| + (if ok then 1 else 0)
      {
        item, ok := NextKeepingView();
      }
    }

    /**
     * ToArray: cut to the end and copy keys 1..head into a fresh slice,
     * cached. Without a cached slice the cuts must end: otherwise Go's
     * loop over Next never finishes.
     */
    method ToArray() returns (r: seq<string>)
      requires Valid() && (cache.None? ==> Ends())
      modifies this
      ensures Valid()
      ensures old(cache).Some? ==> r == old(cache).value && cache == old(cache) && s == old(s)
      ensures old(cache).None? ==> r == old(View()) && cache == Some(r) && s == "" && |r| == head
    {
      if cache.Some? {
        return cache.value;
      }
      Drain();
      r := CopySpan(buf, head);
      cache := Some(r);
    }
  }
}
