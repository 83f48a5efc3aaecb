/**
 * internal/output/writer.go: the output writer. Columns of one line are
 * written separated by the output delimiter and lines end in a newline;
 * with an output template the columns are collected and the template is
 * rendered once per line instead. The buffered writer is modelled as the
 * text written so far.
 */
module InternalOutput {
  import opened Wrappers
  import opened GoStrings
  import InternalOption

  const NewLine: string := "\n"

  /**
   * What text/template's Execute does with one line's columns: the text it
   * wrote to the buffer, and its error when it stopped part-way (the text
   * written before the error stays written).
   */
  datatype Rendering = Rendering(text: string, error: Option<string>)

  /** The text of completed lines: each line's columns joined by the delimiter, then a newline. */
  function Lines(lines: seq<seq<string>>, delimiter: string): string
  {
    if |lines| == 0 then ""
    else Lines(lines[..|lines| - 1], delimiter) + Join(lines[|lines| - 1], delimiter) + NewLine
  }

  /** The text written in template mode: what each execution of the template wrote, in order. */
  function Rendered(lines: seq<seq<string>>, t: InternalOption.Template,
                    execute: (InternalOption.Template, seq<string>) -> Rendering): string
  {
    if |lines| == 0 then ""
    else Rendered(lines[..|lines| - 1], t, execute) + execute(t, lines[|lines| - 1]).text
  }

  /** Appending one more completed line appends its joined text and a newline. */
  lemma {:induction false} LinesSnoc(lines: seq<seq<string>>, line: seq<string>, delimiter: string)
    ensures Lines(lines + [line], delimiter) == Lines(lines, delimiter) + Join(line, delimiter) + NewLine
  {
    assert (lines + [line])[..|lines|] == lines;
  }

  /** One more column on a line that already has some adds the delimiter and the column. */
  lemma {:induction false} JoinSnoc(xs: seq<string>, x: string, delimiter: string)
    requires xs != []
    ensures Join(xs + [x], delimiter) == Join(xs, delimiter) + delimiter + x
  {
    JoinAppend(xs, [x], delimiter);
  }

  /** Write's column loop: the first column, then delimiter and column for each further one. */
  method AppendJoined(out: string, columns: seq<string>, delimiter: string) returns (r: string)
    requires columns != []
    ensures r == out + Join(columns, delimiter)
  {
    r := out + columns[0];
    assert columns[..1] == [columns[0]];
    var i := 1;
    while i < |columns|
      invariant 1 <= i <= |columns|
      invariant r == out + Join(columns[..i], delimiter)
    {
      JoinSnoc(columns[..i], columns[i], delimiter);
      assert columns[..i + 1] == columns[..i] + [columns[i]];
      r := r + delimiter;
      r := r + columns[i];
      i := i + 1;
    }
    assert columns[..i] == columns;
  }

  /** Columns written after the line in progress extend its joined text, after a delimiter when it had columns. */
  lemma {:induction false} LineGrows(done: string, current: seq<string>, columns: seq<string>, delimiter: string)
    requires columns != []
    ensures done + Join(current, delimiter) + (if current != [] then delimiter else "") + Join(columns, delimiter) ==
      done + Join(current + columns, delimiter)
  {
    if current != [] {
      JoinAppend(current, columns, delimiter);
    } else {
      assert current + columns == columns;
    }
  }

  class Writer {
    const delimiter: string
    /** Everything written to the buffered writer so far. */
    var buf: string
    const autoFlush: bool
    var writtenColumns: int
    const outputTemplate: Option<InternalOption.Template>
    /** text/template's Execute on the buffer. */
    const execute: (InternalOption.Template, seq<string>) -> Rendering
    /** The columns collected for the template. */
    var column: seq<string>
    /**
     * The lines completed so far; with a template, the columns of every
     * execution, including those that failed.
     */
    ghost var lines: seq<seq<string>>
    /** Without a template, the columns written since the last newline. */
    ghost var current: seq<string>

    ghost predicate Valid()
      reads this
    {
      match outputTemplate
      case None =>
        buf == Lines(lines, delimiter) + Join(current, delimiter) &&
        writtenColumns == |current| && column == []
      case Some(t) =>
        buf == Rendered(lines, t, execute) && writtenColumns == 0 && current == []
    }

    /** The columns of the line in progress. */
    ghost function Pending(): seq<string>
      reads this
    {
      if outputTemplate.None? then current else column
    }

    /** NewWriter: the output delimiter and the template come from the options. */
    constructor (opt: InternalOption.Option, autoFlush: bool,
                 execute: (InternalOption.Template, seq<string>) -> Rendering)
      ensures Valid()
      ensures delimiter == opt.delimiter.outputDelimiter && outputTemplate == opt.template
      ensures this.autoFlush == autoFlush && this.execute == execute
      ensures buf == "" && writtenColumns == 0 && column == [] && lines == [] && Pending() == []
    {
      delimiter := opt.delimiter.outputDelimiter;
      buf := "";
      this.autoFlush := autoFlush;
      writtenColumns := 0;
      outputTemplate := opt.template;
      this.execute := execute;
      column := [];
      lines := [];
      current := [];
    }

    /**
     * Write: without a template, the columns joined by the delimiter, after
     * one more delimiter when the line already has columns; with a template,
     * the columns are only collected. No columns, no change.
     */
    method Write(columns: seq<string>)
      requires Valid()
      modifies this
      ensures Valid()
      ensures lines == old(lines) && Pending() == old(Pending()) + columns
      ensures outputTemplate.None? && columns != [] ==>
        buf == old(buf) + (if old(writtenColumns) != 0 then delimiter else "") + Join(columns, delimiter) &&
        writtenColumns == old(writtenColumns) + |columns|
      ensures outputTemplate.Some? || columns == [] ==> buf == old(buf) && writtenColumns == old(writtenColumns)
    {
      if |columns| == 0 {
        return;
      }
      if outputTemplate.Some? {
        column := column + columns;
        return;
      }
      var out := buf;
      if writtenColumns != 0 {
        out := out + delimiter;
      }
      out := AppendJoined(out, columns, delimiter);
      LineGrows(Lines(lines, delimiter), current, columns, delimiter);
      buf := out;
      writtenColumns := writtenColumns + |columns|;
      current := current + columns;
    }

    /**
     * WriteNewLine: without a template, end the line and reset the column
     * count; with one, render the collected columns and clear them, or
     * report the template's error, keeping both the columns and whatever
     * the template wrote before failing.
     */
    method WriteNewLine() returns (err: Option<string>)
      requires Valid()
      modifies this
      ensures Valid()
      ensures outputTemplate.None? ==>
        err == None && buf == old(buf) + NewLine && writtenColumns == 0 &&
        lines == old(lines) + [old(Pending())] && Pending() == []
      ensures outputTemplate.Some? ==>
        var r := execute(outputTemplate.value, old(column));
        err == r.error && buf == old(buf) + r.text && lines == old(lines) + [old(column)] &&
        Pending() == (if r.error.None? then [] else old(column))
    {
      if outputTemplate.Some? {
        var t := outputTemplate.value;
        var r := execute(t, column);
        assert (lines + [column])[..|lines|] == lines;
        buf := buf + r.text;
        lines := lines + [column];
        if r.error.Some? {
          return r.error;
        }
        column := [];
        return None;
      }
      LinesSnoc(lines, current, delimiter);
      writtenColumns := 0;
      buf := buf + NewLine;
      lines := lines + [current];
      current := [];
      err := None;
    }
  }
}
