/**
 * column/splitter.go: the older line splitter: a literal separator or a
 * regular expression, followed by the optional removal of empty fields.
 */
module LegacySplitter {
  import opened Wrappers
  import opened GoStrings
  import opened Fields
  import Regex

  datatype Splitter = Splitter(reg: Option<Regex.Regexp>, str: string, removeEmpty: bool)

  /** NewSplitter: split at a literal separator, keeping empty fields. */
  function NewSplitter(str: string): (s: Splitter)
    ensures s.reg.None? && s.str == str && !s.removeEmpty
  {
    Splitter(None, str, false)
  }

  /** NewSplitterRegexp: the compiled expression (none on failure) and Compile's error. */
  function NewSplitterRegexp(e: Regex.Engine, query: string): (r: (Splitter, Option<string>))
    ensures !r.0.removeEmpty && r.0.str == ""
    ensures r.1.None? <==> e.compileError(query).None?
    ensures r.1.None? ==> r.0.reg == Some(Regex.Regexp(query))
    ensures r.1.Some? ==> r.0.reg.None?
  {
    match Regex.Compile(e, query)
    case Ok(re) => (Splitter(Some(re), "", false), None)
    case Err(msg) => (Splitter(None, "", false), Some(msg))
  }

  /** The fields Split returns: the raw split, filtered when empties are removed. */
  function SplitFields(e: Regex.Engine, s: Splitter, line: string): seq<string>
  {
    var raw := match s.reg
      case None => SplitAny(line, s.str)
      case Some(re) => Regex.Split(e, re, line);
    if s.removeEmpty then NonEmpty(raw) else raw
  }

  /** removeEmptyColumn: unchanged without the flag, else the filtering loop. */
  method RemoveEmptyColumn(s: Splitter, input: seq<string>) returns (rt: seq<string>)
    ensures rt == if s.removeEmpty then NonEmpty(input) else input
  {
    if !s.removeEmpty {
      return input;
    }
    rt := RemoveEmpty(input);
  }

  /** Split. */
  method Split(e: Regex.Engine, s: Splitter, line: string) returns (r: seq<string>)
    ensures r == SplitFields(e, s, line)
  {
    var raw;
    match s.reg {
      case None =>
        raw := SplitAny(line, s.str);
      case Some(re) =>
        raw := Regex.Split(e, re, line);
    }
    r := RemoveEmptyColumn(s, raw);
  }

  /** Without the filter, joining the fields with the separator gives the line back. */
  lemma {:induction false} SplitFieldsJoin(e: Regex.Engine, str: string, line: string)
    ensures Join(SplitFields(e, NewSplitter(str), line), str) == line
  {
    SplitAnyJoin(line, str);
  }

  /**
   * With the filter, no field is empty, every non-empty field is kept as
   * often as it occurs, none is added, and filtering again changes nothing.
   */
  lemma {:induction false} SplitFieldsFiltered(e: Regex.Engine, s: Splitter, line: string)
    requires s.removeEmpty
    ensures NoEmpty(SplitFields(e, s, line))
    ensures SplitFields(e, s, line) == NonEmpty(SplitFields(e, s.(removeEmpty := false), line))
    ensures multiset(SplitFields(e, s, line)) == multiset(SplitFields(e, s.(removeEmpty := false), line))["" := 0]
    ensures NonEmpty(SplitFields(e, s, line)) == SplitFields(e, s, line)
    ensures |SplitFields(e, s, line)| <= |SplitFields(e, s.(removeEmpty := false), line)|
  {
    var raw := SplitFields(e, s.(removeEmpty := false), line);
    NonEmptyMultiset(raw);
    NonEmptyIdempotent(raw);
  }
}
