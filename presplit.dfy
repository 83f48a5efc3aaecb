/**
 * iterator/presplit.go: the eager line cursor. The whole line is split when
 * it is installed; `Next` and `Last` walk two independent cursors over the
 * stored fields and `ElementAt` reads them directly.
 */
module PreSplit {
  import opened Wrappers
  import opened GoStrings
  import opened Fields
  import Regex

  const IndexOutOfRange: string := "index out of range"

  /** How a line is split: at a literal separator, or at the matches of a regular expression. */
  datatype Splitter =
    | BySeparator(sep: string)
    | ByRegexp(engine: Regex.Engine, re: Regex.Regexp)

  /** The fields stored for a line: the split, filtered when empties are removed. */
  function SplitLine(s: string, sp: Splitter, removeEmpty: bool): seq<string>
  {
    var parts := match sp
      case BySeparator(sep) => SplitAny(s, sep)
      case ByRegexp(e, re) => Regex.Split(e, re, s);
    if removeEmpty then NonEmpty(parts) else parts
  }

  /** With a literal separator and no filter, joining the stored fields gives the line back. */
  lemma {:induction false} SplitLineJoin(s: string, sep: string)
    ensures Join(SplitLine(s, BySeparator(sep), false), sep) == s
  {
    SplitAnyJoin(s, sep);
  }

  /** With the filter, the stored fields are the non-empty pieces of the split, none of them empty. */
  lemma {:induction false} SplitLineFiltered(s: string, sp: Splitter)
    ensures NoEmpty(SplitLine(s, sp, true))
    ensures SplitLine(s, sp, true) == NonEmpty(SplitLine(s, sp, false))
    ensures multiset(SplitLine(s, sp, true)) == multiset(SplitLine(s, sp, false))["" := 0]
  {
    NonEmptyMultiset(SplitLine(s, sp, false));
  }

  /** Consecutive separators give empty fields. */
  lemma {:induction false} SplitLineExample()
    ensures SplitLine("a b   c d", BySeparator(" "), false) == ["a", "b", "", "", "c", "d"]
  {
    var parts := ["a", "b", "", "", "c", "d"];
    assert Join(parts, " ") == "a b   c d" by {
      assert Join(parts[5..], " ") == "d";
      assert Join(parts[4..], " ") == "c d";
      assert Join(parts[3..], " ") == " c d";
      assert Join(parts[2..], " ") == "  c d";
      assert Join(parts[1..], " ") == "b   c d";
    }
    SplitJoin(parts, " ");
  }

  /** The filter drops those empty fields. */
  lemma {:induction false} SplitLineExampleFiltered()
    ensures SplitLine("a b   c d", BySeparator(" "), true) == ["a", "b", "c", "d"]
  {
    SplitLineExample();
    FilterExample();
    assert SplitLine("a b   c d", BySeparator(" "), true) == NonEmpty(SplitLine("a b   c d", BySeparator(" "), false));
  }

  /** The empty-field filter on the fields of the example, one field at a time from the back. */
  lemma {:induction false} FilterExample()
    ensures NonEmpty(["a", "b", "", "", "c", "d"]) == ["a", "b", "c", "d"]
  {
    var parts := ["a", "b", "", "", "c", "d"];
    assert NonEmpty(parts[6..]) == [] by { assert parts[6..] == []; }
    assert NonEmpty(parts[5..]) == ["d"] by { assert parts[5..][1..] == parts[6..]; }
    assert NonEmpty(parts[4..]) == ["c", "d"] by { assert parts[4..][1..] == parts[5..]; }
    assert NonEmpty(parts[3..]) == ["c", "d"] by { assert parts[3..][1..] == parts[4..]; }
    assert NonEmpty(parts[2..]) == ["c", "d"] by { assert parts[2..][1..] == parts[3..]; }
    assert NonEmpty(parts[1..]) == ["b", "c", "d"] by { assert parts[1..][1..] == parts[2..]; }
    assert parts[0..] == parts && parts[0..][1..] == parts[1..];
  }

  class PreSplitIterator {
    /** The stored fields. */
    var a: seq<string>
    /** How many fields Next has handed out. */
    var head: int
    /** Minus how many fields Last has handed out. */
    var tail: int
    const splitter: Splitter
    var l: int
    const removeEmpty: bool
    /** The line currently installed. */
    ghost var line: string

    ghost predicate Valid()
      reads this
    {
      l == |a| && 0 <= head <= l && -l <= tail <= 0 && a == SplitLine(line, splitter, removeEmpty)
    }

    /** NewPreSplitIterator and NewPreSplitByRegexpIterator: split the line at once. */
    constructor (s: string, splitter: Splitter, removeEmpty: bool)
      ensures Valid()
      ensures this.splitter == splitter && this.removeEmpty == removeEmpty && line == s
      ensures a == SplitLine(s, splitter, removeEmpty) && l == |a| && head == 0 && tail == 0
    {
      this.splitter := splitter;
      this.removeEmpty := removeEmpty;
      line := s;
      head := 0;
      tail := 0;
      new;
      a := SplitFields(s);
      l := |a|;
    }

    /** The splitting shared by the constructors and Reset. */
    method SplitFields(s: string) returns (r: seq<string>)
      ensures r == SplitLine(s, splitter, removeEmpty)
    {
      match splitter {
        case BySeparator(sep) =>
          r := SplitAny(s, sep);
        case ByRegexp(e, re) =>
          r := Regex.Split(e, re, s);
      }
      if removeEmpty {
        r := RemoveEmpty(r);
      }
    }

    /** Reset: split the new line and rewind both cursors. */
    method Reset(s: string)
      modifies this
      ensures Valid()
      ensures line == s && a == SplitLine(s, splitter, removeEmpty) && l == |a| && head == 0 && tail == 0
    {
      a := SplitFields(s);
      line := s;
      tail := 0;
      head := 0;
      l := |a|;
    }

    /**
     * ElementAt: field `idx` (1-based), or field `-idx` from the end; any
     * index beyond the `l` fields in either direction is out of range.
     */
    method ElementAt(idx: int) returns (r: Result<string>)
      requires Valid() && idx != 0
      ensures r.Ok? <==> -|a| <= idx <= |a|
      ensures r.Ok? ==> r.value == if idx > 0 then a[idx - 1] else a[|a| + idx]
      ensures r.Err? ==> r.error == IndexOutOfRange
      ensures removeEmpty && r.Ok? ==> r.value != ""
    {
      if l < idx {
        return Err(IndexOutOfRange);
      }
      if idx < 0 {
        if -l > idx {
          return Err(IndexOutOfRange);
        }
        return Ok(a[l + idx]);
      }
      return Ok(a[idx - 1]);
    }

    /**
     * Next: the field at the front cursor, advancing it; nothing once either
     * cursor has run through all `l` fields.
     */
    method Next() returns (item: string, ok: bool)
      requires Valid()
      modifies this
      ensures Valid()
      ensures ok <==> old(head) < l && -l < old(tail)
      ensures ok ==> item == a[old(head)] && head == old(head) + 1
      ensures !ok ==> item == "" && head == old(head)
      ensures a == old(a) && l == old(l) && tail == old(tail) && line == old(line)
    {
      if l <= head {
        return "", false;
      }
      if -l >= tail {
        return "", false;
      }
      item := a[head];
      head := head + 1;
      ok := true;
    }

    /**
     * Last: the field at the back cursor, moving it one field earlier; nothing
     * once either cursor has run through all `l` fields.
     */
    method Last() returns (item: string, ok: bool)
      requires Valid()
      modifies this
      ensures Valid()
      ensures ok <==> -l < old(tail) && old(head) < l
      ensures ok ==> item == a[l + old(tail) - 1] && tail == old(tail) - 1
      ensures !ok ==> item == "" && tail == old(tail)
      ensures a == old(a) && l == old(l) && head == old(head) && line == old(line)
    {
      if -l >= tail {
        return "", false;
      }
      if l <= head {
        return "", false;
      }
      item := a[l + tail - 1];
      tail := tail - 1;
      ok := true;
    }

    /** ToArray: the stored fields themselves, the split of the installed line. */
    method ToArray() returns (r: seq<string>)
      requires Valid()
      ensures r == SplitLine(line, splitter, removeEmpty)
      ensures removeEmpty ==> NoEmpty(r)
    {
      r := a;
    }
  }

  /** ElementAt serves exactly the fields ToArray returns, counted from either end. */
  method ElementAtMatchesToArray(it: PreSplitIterator, idx: int) returns (x: Result<string>, all: seq<string>)
    requires it.Valid() && idx != 0
    ensures x.Ok? <==> (1 <= idx <= |all| || 1 <= -idx <= |all|)
    ensures x.Ok? && idx > 0 ==> x.value == all[idx - 1]
    ensures x.Ok? && idx < 0 ==> x.value == all[|all| + idx]
  {
    x := it.ElementAt(idx);
    all := it.ToArray();
  }
}
