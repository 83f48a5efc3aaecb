/**
 * column/switch.go: the older switch selector. Its addresses, parsing and
 * selection loops are the same code as internal/column/switch.go and are
 * taken from InternalSwitch; only Select differs, writing to the older
 * writer and reading the older iterator.
 */
module LegacySwitch {
  import Regex
  import InternalSwitch
  import LegacyWriter
  import LegacyIterator

  /**
   * Select: every field of the line is read, then the around-context or
   * toggle selection is written as one call to the writer.
   */
  method Select(e: Regex.Engine, s: InternalSwitch.SwitchSelector, w: LegacyWriter.Writer, it: LegacyIterator.Iterator)
    requires it.Valid() && w.Valid()
    modifies w, it
    ensures it.Valid() && w.Valid()
    ensures var strs := if old(it.cache).Some? then old(it.cache).value else old(it.View());
      w.current == old(w.current) + InternalSwitch.Selected(e, s, strs) &&
      w.lines == old(w.lines) && w.autoFlush == old(w.autoFlush)
  {
    var strs := it.ToArray();
    var rt;
    if s.end.isAroundContext {
      rt := InternalSwitch.SelectAround(e, s.begin, s.end.address.num, strs);
    } else {
      rt := InternalSwitch.SelectToggle(e, s.begin, s.end.address, strs);
    }
    w.Write(rt);
  }
}
