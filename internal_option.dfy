/**
 * internal/option/option.go: the split-strategy flags, the CSV/TSV choice,
 * the field-split override and the rewrite of `{}` markers in an output
 * template into text/template actions.
 */
module InternalOption {
  import W = Wrappers
  import opened GoStrconv
  import Fields

  /** The CSV/TSV flags. */
  datatype Xsv = Xsv(csv: bool, tsv: bool)

  /** The delimiter flags as the iterators consume them. */
  datatype DelimiterOption = DelimiterOption(
    inputDelimiter: string,
    outputDelimiter: string,
    removeEmpty: bool,
    useRegexp: bool,
    splitBefore: bool)

  /** A parsed output template; rendering it is left to text/template. */
  datatype Template = Template(text: string)

  datatype Option = Option(
    delimiter: DelimiterOption,
    inputFiles: seq<string>,
    xsv: Xsv,
    template: W.Option<Template>)

  /** The raw flag values as they come from the command line. */
  datatype Flags = Flags(
    inputDelimiter: string,
    outputDelimiter: string,
    removeEmpty: bool,
    useRegexp: bool,
    splitBefore: bool,
    fieldSplit: bool,
    csv: bool,
    tsv: bool,
    template: string,
    inputFiles: seq<string>)

  const DefaultTemplate: string := ""
  const FieldSplitDelimiter: string := "\\s+"

  /** Whether the input is CSV/TSV, and its field separator; CSV wins over TSV. */
  function IsXsv(x: Xsv): (r: (bool, char))
    ensures r.0 <==> x.csv || x.tsv
    ensures r.1 == '\t' <==> !x.csv && x.tsv
    ensures r.1 == ',' || r.1 == '\t'
  {
    if x.csv then (true, ',')
    else if x.tsv then (true, '\t')
    else (false, ',')
  }

  /** The text/template action that reads field `k` of the row. */
  function Marker(k: nat): string
  {
    "{{ index . " + Itoa(k) + " }}"
  }

  predicate MarkerAt(input: string, i: int)
  {
    0 <= i && i + 1 < |input| && input[i] == '{' && input[i + 1] == '}'
  }

  /** How many `{}` markers the rewrite replaces, scanning left to right. */
  function MarkerCount(input: string): nat
    decreases |input|
  {
    if |input| == 0 then 0
    else if MarkerAt(input, 0) then 1 + MarkerCount(input[2..])
    else MarkerCount(input[1..])
  }

  /**
   * The rewritten template: the k-th `{}` (counting from `cnt`) becomes
   * `marker(k)`, every other character is kept. parseTemplate uses Marker;
   * the rewrite's structure does not depend on the action text.
   */
  function Rewrite(input: string, cnt: nat, marker: nat -> string): string
    decreases |input|
  {
    if |input| == 0 then ""
    else if MarkerAt(input, 0) then marker(cnt) + Rewrite(input[2..], cnt + 1, marker)
    else [input[0]] + Rewrite(input[1..], cnt, marker)
  }

  /** parseTemplate's rewriting loop. */
  method RewriteTemplate(input: string) returns (result: string)
    ensures result == Rewrite(input, 0, Marker)
  {
    result := "";
    var cnt: nat := 0;
    var i := 0;
    while i < |input|
      invariant 0 <= i <= |input|
      invariant result + Rewrite(input[i..], cnt, Marker) == Rewrite(input, 0, Marker)
      decreases |input| - i
    {
      ghost var rest := input[i..];
      if input[i] == '{' && i + 1 < |input| && input[i + 1] == '}' {
        assert rest[2..] == input[i + 2..];
        RewriteMarkerStep(rest, cnt, Marker);
        Fields.Regroup(result, Marker(cnt), Rewrite(input[i + 2..], cnt + 1, Marker));
        result := result + Marker(cnt);
        cnt := cnt + 1;
        i := i + 2;
      } else {
        assert rest[1..] == input[i + 1..];
        RewriteCharStep(rest, cnt, Marker);
        Fields.Regroup(result, [input[i]], Rewrite(input[i + 1..], cnt, Marker));
        result := result + [input[i]];
        i := i + 1;
      }
    }
    assert input[i..] == "";
  }

  /** A template without `{}` is rewritten to itself. */
  lemma {:induction false} RewriteNoMarker(input: string, cnt: nat, marker: nat -> string)
    requires forall i :: !MarkerAt(input, i)
    ensures Rewrite(input, cnt, marker) == input
    decreases |input|
  {
    if |input| > 0 {
      var rest := input[1..];
      forall i ensures !MarkerAt(rest, i) {
        assert !MarkerAt(input, i + 1);
      }
      RewriteNoMarker(rest, cnt, marker);
    }
  }

  /** Rewrite at a marker: its action, then the rest with the next number. */
  lemma {:induction false} RewriteMarkerStep(x: string, cnt: nat, marker: nat -> string)
    requires MarkerAt(x, 0)
    ensures Rewrite(x, cnt, marker) == marker(cnt) + Rewrite(x[2..], cnt + 1, marker)
    ensures MarkerCount(x) == 1 + MarkerCount(x[2..])
  {
  }

  /** Rewrite at any other character: the character, then the rest. */
  lemma {:induction false} RewriteCharStep(x: string, cnt: nat, marker: nat -> string)
    requires |x| > 0 && !MarkerAt(x, 0)
    ensures Rewrite(x, cnt, marker) == [x[0]] + Rewrite(x[1..], cnt, marker)
    ensures MarkerCount(x) == MarkerCount(x[1..])
  {
  }

  /** RewriteAppend when `a` starts with a marker, given the claim for the rest of `a`. */
  lemma {:induction false} AppendAtMarker(a: string, b: string, cnt: nat, marker: nat -> string)
    requires MarkerAt(a, 0)
    requires Rewrite(a[2..] + b, cnt + 1, marker) ==
      Rewrite(a[2..], cnt + 1, marker) + Rewrite(b, cnt + 1 + MarkerCount(a[2..]), marker)
    ensures Rewrite(a + b, cnt, marker) == Rewrite(a, cnt, marker) + Rewrite(b, cnt + MarkerCount(a), marker)
  {
    var ab := a + b;
    assert MarkerAt(ab, 0);
    assert ab[2..] == a[2..] + b;
    RewriteMarkerStep(ab, cnt, marker);
    RewriteMarkerStep(a, cnt, marker);
    Fields.Regroup(marker(cnt), Rewrite(a[2..], cnt + 1, marker), Rewrite(b, cnt + MarkerCount(a), marker));
  }

  /** RewriteAppend when `a` starts with any other character, given the claim for the rest of `a`. */
  lemma {:induction false} AppendAtChar(a: string, b: string, cnt: nat, marker: nat -> string)
    requires |a| > 0 && !MarkerAt(a, 0) && (|a| > 1 || a[0] != '{')
    requires Rewrite(a[1..] + b, cnt, marker) ==
      Rewrite(a[1..], cnt, marker) + Rewrite(b, cnt + MarkerCount(a[1..]), marker)
    ensures Rewrite(a + b, cnt, marker) == Rewrite(a, cnt, marker) + Rewrite(b, cnt + MarkerCount(a), marker)
  {
    var ab := a + b;
    assert !MarkerAt(ab, 0);
    assert ab[1..] == a[1..] + b;
    RewriteCharStep(ab, cnt, marker);
    RewriteCharStep(a, cnt, marker);
    Fields.Regroup([a[0]], Rewrite(a[1..], cnt, marker), Rewrite(b, cnt + MarkerCount(a), marker));
  }

  /**
   * Rewriting is compositional: text that does not end in an unmatched `{`
   * rewrites independently of what follows, and the numbering continues.
   */
  lemma {:induction false} RewriteAppend(a: string, b: string, cnt: nat, marker: nat -> string)
    requires |a| == 0 || a[|a| - 1] != '{'
    ensures Rewrite(a + b, cnt, marker) == Rewrite(a, cnt, marker) + Rewrite(b, cnt + MarkerCount(a), marker)
    decreases |a|
  {
    if |a| == 0 {
      assert a + b == b;
    } else if MarkerAt(a, 0) {
      RewriteAppend(a[2..], b, cnt + 1, marker);
      AppendAtMarker(a, b, cnt, marker);
    } else {
      RewriteAppend(a[1..], b, cnt, marker);
      AppendAtChar(a, b, cnt, marker);
    }
  }

  lemma {:induction false} RewriteExample()
    ensures Rewrite("{}-{}", 0, Marker) == Marker(0) + "-" + Marker(1)
    ensures Rewrite("{x}", 0, Marker) == "{x}"
  {
    assert MarkerAt("{}-{}", 0);
    assert "{}-{}"[2..] == "-{}";
    assert !MarkerAt("-{}", 0);
    assert "-{}"[1..] == "{}";
    assert MarkerAt("{}", 0);
    assert "{}"[2..] == "";
    assert !MarkerAt("{x}", 0);
    assert "{x}"[1..] == "x}";
    assert !MarkerAt("x}", 0);
    assert "x}"[1..] == "}";
    assert !MarkerAt("}", 0);
    assert "}"[1..] == "";
  }

  /**
   * parseTemplate: rewrite the markers, then hand the text to the template
   * parser, whose errors come back unchanged.
   */
  method ParseTemplate(input: string, parseError: string -> W.Option<string>) returns (r: W.Result<Template>)
    ensures r.Ok? <==> parseError(Rewrite(input, 0, Marker)).None?
    ensures r.Ok? ==> r.value == Template(Rewrite(input, 0, Marker))
    ensures r.Err? ==> r.error == parseError(Rewrite(input, 0, Marker)).value
  {
    var text := RewriteTemplate(input);
    match parseError(text)
    case None => r := W.Ok(Template(text));
    case Some(msg) => r := W.Err(msg);
  }

  /**
   * NewOption: field splitting forces the delimiter `\s+` and regular
   * expression splitting; a non-default template must parse.
   */
  method NewOption(v: Flags, parseError: string -> W.Option<string>) returns (r: W.Result<Option>)
    ensures r.Ok? <==> v.template == DefaultTemplate || parseError(Rewrite(v.template, 0, Marker)).None?
    ensures r.Ok? ==> var d := r.value.delimiter;
      d.inputDelimiter == (if v.fieldSplit then FieldSplitDelimiter else v.inputDelimiter) &&
      d.useRegexp == (v.useRegexp || v.fieldSplit) &&
      d.outputDelimiter == v.outputDelimiter && d.removeEmpty == v.removeEmpty &&
      d.splitBefore == v.splitBefore &&
      r.value.xsv == Xsv(v.csv, v.tsv) && r.value.inputFiles == v.inputFiles &&
      (r.value.template.Some? <==> v.template != DefaultTemplate)
    ensures r.Ok? && v.template != DefaultTemplate ==>
      r.value.template == W.Some(Template(Rewrite(v.template, 0, Marker)))
    ensures r.Err? ==> r.error == parseError(Rewrite(v.template, 0, Marker)).value
  {
    var inputDelimiter := v.inputDelimiter;
    if v.fieldSplit {
      inputDelimiter := FieldSplitDelimiter;
    }
    var useRegexp := v.useRegexp || v.fieldSplit;
    var tmpl: W.Option<Template> := W.None;
    if v.template != DefaultTemplate {
      var t := ParseTemplate(v.template, parseError);
      if t.Err? {
        return W.Err(t.error);
      }
      tmpl := W.Some(t.value);
    }
    r := W.Ok(Option(
      DelimiterOption(inputDelimiter, v.outputDelimiter, v.removeEmpty, useRegexp, v.splitBefore),
      v.inputFiles, Xsv(v.csv, v.tsv), tmpl));
  }
}
