/**
 * internal/column/index.go: the single-index selector. Index 0 writes the
 * whole line, any other index the one field ElementAt finds.
 */
module InternalIndex {
  import opened Wrappers
  import opened GoStrconv
  import InternalIterator
  import InternalOutput
  import InternalRange

  datatype IndexSelector = IndexSelector(index: int)

  /**
   * NewIndexSelectorFromString: the default for an empty query, else the
   * query read as a decimal; Atoi's error is passed on beside the
   * selector Atoi's value makes.
   */
  function NewIndexSelectorFromString(str: string, def: int): (r: (IndexSelector, Option<string>))
    ensures str == "" ==> r == (IndexSelector(def), None)
    ensures str != "" ==> (r.1.None? <==> IsSigned(str) && MinInt64 <= SignedValue(str) <= MaxInt64)
    ensures str != "" && r.1.None? ==> r.0.index == SignedValue(str)
    ensures str != "" && !IsSigned(str) ==> r.0.index == 0
  {
    if |str| == 0 then (IndexSelector(def), None)
    else
      match Atoi(str)
      case Ok(num) => (IndexSelector(num), None)
      case Err(msg) => (IndexSelector(AtoiValue(str)), Some(msg))
  }

  /** Every 64-bit index written in decimal is read back without error. */
  lemma {:induction false} FromItoa(n: int, def: int)
    requires MinInt64 <= n <= MaxInt64
    ensures NewIndexSelectorFromString(Itoa(n), def) == (IndexSelector(n), None)
  {
    AtoiItoa(n);
  }

  /**
   * Select: index 0 writes every field ToArray returns; another index
   * writes the field ElementAt finds, or returns its error and writes
   * nothing.
   */
  method Select(sel: IndexSelector, w: InternalOutput.Writer, it: InternalIterator.Iterator) returns (err: Option<string>)
    requires it.Valid() && w.Valid()
    modifies w, it
    ensures it.Valid() && w.Valid()
    ensures sel.index == 0 ==>
      err == None &&
      w.Pending() == old(w.Pending()) + (if old(it.cache).Some? then old(it.cache).value else old(it.View()))
    ensures sel.index > 0 ==>
      (err.None? <==> sel.index <= |it.View()|) &&
      (err.None? ==> w.Pending() == old(w.Pending()) + [it.View()[sel.index - 1]])
    ensures sel.index < 0 ==>
      (err.None? <==> -sel.index <= |it.View()|) &&
      (err.None? ==> w.Pending() == old(w.Pending()) + [it.View()[|it.View()| + sel.index]])
    ensures err.Some? ==> err == Some(InternalIterator.IndexOutOfRange) && w.buf == old(w.buf) && w.Pending() == old(w.Pending())
    ensures it.removeEmpty && sel.index >= 0 ==> it.View() == old(it.View())
  {
    if sel.index == 0 {
      var all := it.ToArray();
      w.Write(all);
      return None;
    }
    var item := it.ElementAt(sel.index);
    match item
    case Err(msg) =>
      return Some(msg);
    case Ok(v) =>
      w.Write([v]);
      return None;
  }

  /** The index N and the range N:N select the same field of a row. */
  lemma {:induction false} IndexIsRange(row: seq<string>, n: int)
    requires 1 <= n <= |row| || 1 <= -n <= |row|
    ensures InternalRange.Safe(InternalRange.RangeSelector(n, 1, n, false), |row|)
    ensures InternalRange.Columns(InternalRange.RangeSelector(n, 1, n, false), row) ==
      Ok([if n > 0 then row[n - 1] else row[|row| + n]])
  {
  }
}
