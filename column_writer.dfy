/**
 * column/writer.go: the older output writer, without templates. Columns of
 * one line are written separated by the delimiter and a newline ends the
 * line. The buffered writer is modelled as the text written so far.
 */
module LegacyWriter {
  import opened GoStrings
  import InternalOutput

  class Writer {
    const delimiter: string
    /** Everything written to the buffered writer so far. */
    var buf: string
    var autoFlush: bool
    var writtenColumns: int
    /** The lines completed so far. */
    ghost var lines: seq<seq<string>>
    /** The columns written since the last newline. */
    ghost var current: seq<string>

    /** The text is the completed lines, then the columns of the line in progress; the counter counts those columns. */
    ghost predicate Valid()
      reads this
    {
      buf == InternalOutput.Lines(lines, delimiter) + Join(current, delimiter) &&
      writtenColumns == |current|
    }

    /** NewWriter: nothing written, auto-flush off. */
    constructor (delimiter: string)
      ensures Valid()
      ensures this.delimiter == delimiter && !autoFlush
      ensures buf == "" && writtenColumns == 0 && lines == [] && current == []
    {
      this.delimiter := delimiter;
      buf := "";
      autoFlush := false;
      writtenColumns := 0;
      lines := [];
      current := [];
    }

    /** SetAutoFlush: only the flag changes. */
    method SetAutoFlush(b: bool)
      requires Valid()
      modifies this
      ensures Valid()
      ensures autoFlush == b
      ensures buf == old(buf) && writtenColumns == old(writtenColumns)
      ensures lines == old(lines) && current == old(current)
    {
      autoFlush := b;
    }

    /**
     * Write: the columns joined by the delimiter, after one more delimiter
     * when the line already has columns. No columns, no change.
     */
    method Write(columns: seq<string>)
      requires Valid()
      modifies this
      ensures Valid()
      ensures lines == old(lines) && current == old(current) + columns && autoFlush == old(autoFlush)
      ensures columns != [] ==>
        buf == old(buf) + (if old(writtenColumns) != 0 then delimiter else "") + Join(columns, delimiter) &&
        writtenColumns == old(writtenColumns) + |columns|
      ensures columns == [] ==> buf == old(buf) && writtenColumns == old(writtenColumns)
    {
      if |columns| == 0 {
        assert current + columns == current;
        return;
      }
      var out := buf;
      if writtenColumns != 0 {
        out := out + delimiter;
      }
      out := InternalOutput.AppendJoined(out, columns, delimiter);
      InternalOutput.LineGrows(InternalOutput.Lines(lines, delimiter), current, columns, delimiter);
      buf := out;
      writtenColumns := writtenColumns + |columns|;
      current := current + columns;
    }

    /** WriteNewLine: end the line and reset the column count. */
    method WriteNewLine()
      requires Valid()
      modifies this
      ensures Valid()
      ensures buf == old(buf) + InternalOutput.NewLine && writtenColumns == 0
      ensures lines == old(lines) + [old(current)] && current == [] && autoFlush == old(autoFlush)
    {
      InternalOutput.LinesSnoc(lines, current, delimiter);
      writtenColumns := 0;
      buf := buf + InternalOutput.NewLine;
      lines := lines + [current];
      current := [];
    }
  }

  /** Two writes on one line give the same text as one write of both column lists. */
  method WritesConcatenate(delimiter: string, xs: seq<string>, ys: seq<string>) returns (two: string, one: string)
    ensures two == one
  {
    var w1 := new Writer(delimiter);
    w1.Write(xs);
    w1.Write(ys);
    var w2 := new Writer(delimiter);
    w2.Write(xs + ys);
    assert w1.current == w2.current;
    two, one := w1.buf, w2.buf;
  }
}
