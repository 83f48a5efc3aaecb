/**
 * column/index.go: the older single-index selector, a function from the
 * fields of a line to the selected fields. Index 0 is the whole slice and
 * any other index reads the slice directly, 0-based.
 */
module LegacyIndex {
  import opened Wrappers
  import InternalIndex

  datatype IndexSelector = IndexSelector(index: int)

  const IndexOutOfRange: string := "index out of range"

  /** What a call does: return a result, or panic on a slice index outside the slice. */
  datatype Outcome = Returned(result: Result<seq<string>>) | Panics

  /**
   * NewIndexSelectorFromString: the default for an empty query, else the
   * query read as a decimal with Atoi's error passed on. The code is the
   * same as in internal/column/index.go.
   */
  function NewIndexSelectorFromString(str: string, def: int): (r: (IndexSelector, Option<string>))
    ensures str == "" ==> r == (IndexSelector(def), None)
    ensures r.1.None? <==> InternalIndex.NewIndexSelectorFromString(str, def).1.None?
    ensures r.0.index == InternalIndex.NewIndexSelectorFromString(str, def).0.index
  {
    var (sel, err) := InternalIndex.NewIndexSelectorFromString(str, def);
    (IndexSelector(sel.index), err)
  }

  /**
   * Select as written: an index past the length is an error, 0 is the
   * whole slice, anything else reads `strings[index]`, which panics for a
   * negative index and for the index equal to the length that the guard
   * lets through.
   */
  function SelectAsWritten(sel: IndexSelector, strings: seq<string>): (r: Outcome)
    ensures r == Panics <==> sel.index < 0 || 0 < sel.index == |strings|
    ensures r.Returned? ==> (r.result.Err? <==> |strings| < sel.index)
    ensures r.Returned? && r.result.Ok? && sel.index != 0 ==> r.result.value == [strings[sel.index]]
  {
    if |strings| < sel.index then Returned(Err(IndexOutOfRange))
    else if sel.index == 0 then Returned(Ok(strings))
    else if sel.index < 0 || sel.index == |strings| then Panics
    else Returned(Ok([strings[sel.index]]))
  }

  /** The guard lets index 1 through on a one-field line, and the read then panics. */
  lemma {:induction false} SelectAsWrittenPanics()
    ensures !(|["a"]| < 1)
    ensures SelectAsWritten(IndexSelector(1), ["a"]) == Panics
    ensures Select(IndexSelector(1), ["a"]) == Err(IndexOutOfRange)
  {
  }

  /**
   * Select with the guard the 0-based read needs: every index from the
   * length on is out of range. Negative indices still panic and are
   * excluded.
   */
  function Select(sel: IndexSelector, strings: seq<string>): (r: Result<seq<string>>)
    requires sel.index >= 0
    ensures r.Ok? <==> sel.index == 0 || sel.index < |strings|
    ensures r.Err? ==> r.error == IndexOutOfRange
  {
    if |strings| <= sel.index && sel.index != 0 then Err(IndexOutOfRange)
    else if sel.index == 0 then Ok(strings)
    else Ok([strings[sel.index]])
  }

  /** The corrected selector agrees with the code wherever the code does not panic, and never panics itself. */
  lemma {:induction false} SelectAgreesWhereDefined(sel: IndexSelector, strings: seq<string>)
    requires sel.index >= 0
    ensures SelectAsWritten(sel, strings) != Panics ==> SelectAsWritten(sel, strings) == Returned(Select(sel, strings))
    ensures SelectAsWritten(sel, strings) == Panics <==> sel.index == |strings| && sel.index != 0
  {
  }

  /** Index 0 returns the line unchanged; index k the single field at position k. */
  lemma {:induction false} SelectFields(sel: IndexSelector, strings: seq<string>)
    requires 0 <= sel.index < |strings| || sel.index == 0
    ensures Select(sel, strings) == Ok(if sel.index == 0 then strings else [strings[sel.index]])
    ensures Select(sel, strings).Ok? && sel.index != 0 ==> |Select(sel, strings).value| == 1
  {
  }
}
