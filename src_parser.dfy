/**
 * src/parser/parser.go: turns the command-line queries into selectors.
 * An index query `n` is one index; `start:stop` and `start:stop:step` are
 * ranges with defaults for empty sections; a switch query is handed to the
 * switch-selector constructor. The first failing query aborts the parse.
 *
 * Deciding whether a query is an index or a switch query, and cutting a
 * switch query into its two addresses, is done by regular expressions in
 * src/parser/query.go, which is not part of this model: the three
 * decisions are a `Classifier` given as a parameter. The selector
 * constructors of src/column are not part of this model either: the
 * selectors are values recording their arguments, and a switch selector is
 * built by the address parser of internal/column/switch.go.
 */
module SrcParser {
  import opened Wrappers
  import opened GoStrings
  import opened GoStrconv
  import Regex
  import InternalSwitch

  datatype Selector =
    | Index(index: int)
    | Range(start: int, step: int, stop: int, isInfStop: bool)
    | Switch(selector: InternalSwitch.SwitchSelector)

  /** The query classification of src/parser/query.go. */
  datatype Classifier = Classifier(
    isIndexQuery: string -> bool,
    isSwitchQuery: string -> bool,
    /** The begin and end address a switch query's pattern captures. */
    switchParts: string -> (string, string)
  )

  const StepZero: string := "step cannot be zero"

  function InvalidIndexQuery(q: string): string
  {
    q + " is invalid index query"
  }

  function InvalidQuery(q: string): string
  {
    q + " is invalid query"
  }

  /** An optional section: the default when empty, else the section read by Atoi. */
  function Section(s: string, def: int): Result<int>
  {
    if s == "" then Ok(def) else Atoi(s)
  }

  /**
   * A range query of two or three sections: start (default 1), stop
   * (default the start, and then unbounded), step (default 1, never 0).
   */
  function RangeQuery(sections: seq<string>): (r: Result<Selector>)
    requires |sections| == 2 || |sections| == 3
    ensures r.Ok? ==> r.value.Range? && r.value.step != 0 && (r.value.isInfStop <==> sections[1] == "")
  {
    match Section(sections[0], 1)
    case Err(msg) => Err(msg)
    case Ok(start) =>
      match Section(sections[1], start)
      case Err(msg) => Err(msg)
      case Ok(stop) =>
        match Section(if |sections| == 3 then sections[2] else "", 1)
        case Err(msg) => Err(msg)
        case Ok(step) =>
          if step == 0 then Err(StepZero)
          else Ok(Range(start, step, stop, sections[1] == ""))
  }

  /** An index query, cut at every colon. */
  function IndexQuery(q: string): (r: Result<Selector>)
    ensures r.Ok? ==> r.value.Index? || (r.value.Range? && r.value.step != 0)
    ensures r.Ok? && r.value.Index? ==> Atoi(q) == Ok(r.value.index)
    ensures |Split(q, ":")| > 3 ==> r == Err(InvalidIndexQuery(q))
  {
    var sections := Split(q, ":");
    if |sections| == 1 then
      match Atoi(sections[0])
      case Err(msg) => Err(msg)
      case Ok(idx) => Ok(Index(idx))
    else if |sections| == 2 || |sections| == 3 then RangeQuery(sections)
    else Err(InvalidIndexQuery(q))
  }

  /** One query: an index query, else a switch query, else an error. */
  function ParseQuery(e: Regex.Engine, c: Classifier, q: string): (r: Result<Selector>)
    ensures r.Ok? && r.value.Switch? ==> !c.isIndexQuery(q) && c.isSwitchQuery(q)
    ensures r.Ok? && !r.value.Switch? ==> c.isIndexQuery(q)
    ensures r.Ok? && r.value.Range? ==> r.value.step != 0
    ensures !c.isIndexQuery(q) && !c.isSwitchQuery(q) ==> r == Err(InvalidQuery(q))
  {
    if c.isIndexQuery(q) then IndexQuery(q)
    else if c.isSwitchQuery(q) then
      var (begin, end) := c.switchParts(q);
      match InternalSwitch.NewSwitchSelector(e, begin, end)
      case Err(msg) => Err(msg)
      case Ok(s) => Ok(Switch(s))
    else Err(InvalidQuery(q))
  }

  /**
   * Parse: one selector per query, in query order, or the error of the
   * first query that fails, with no selectors.
   */
  method Parse(e: Regex.Engine, c: Classifier, args: seq<string>) returns (r: Result<seq<Selector>>)
    ensures r.Ok? <==> forall k :: 0 <= k < |args| ==> ParseQuery(e, c, args[k]).Ok?
    ensures r.Ok? ==> (|r.value| == |args| &&
      forall k :: 0 <= k < |args| ==> r.value[k] == ParseQuery(e, c, args[k]).value)
    ensures r.Err? ==> exists i :: (0 <= i < |args| && ParseQuery(e, c, args[i]) == Err(r.error) &&
      forall k :: 0 <= k < i ==> ParseQuery(e, c, args[k]).Ok?)
  {
    var rt := [];
    var i := 0;
    while i < |args|
      invariant 0 <= i <= |args|
      invariant |rt| == i
      invariant forall k :: 0 <= k < i ==> ParseQuery(e, c, args[k]).Ok? && rt[k] == ParseQuery(e, c, args[k]).value
    {
      var q := args[i];
      var s := ParseQuery(e, c, q);
      if s.Err? {
        return Err(s.error);
      }
      rt := rt + [s.value];
      i := i + 1;
    }
    return Ok(rt);
  }

  /** The decimal text of an integer has no colon. */
  lemma {:induction false} ItoaNoColon(n: int)
    ensures ':' !in Itoa(n)
  {
    var s := Itoa(n);
    if n < 0 {
      assert forall i :: 1 <= i < |s| ==> s[i] == NatDigits(-n)[i - 1];
    }
  }

  /** An optional section written out: empty for none, else the decimal text. */
  function Written(o: Option<int>): (s: string)
    ensures ':' !in s
  {
    match o
    case None => ""
    case Some(n) => ItoaNoColon(n); Itoa(n)
  }

  /** Every written section that is present reads back as its value. */
  lemma {:induction false} WrittenSection(o: Option<int>, def: int)
    requires o.Some? ==> MinInt64 <= o.value <= MaxInt64
    ensures Section(Written(o), def) == Ok(if o.Some? then o.value else def)
  {
    if o.Some? {
      AtoiItoa(o.value);
      assert Written(o) != "" by {
        assert |NatDigits(if o.value < 0 then -o.value else o.value)| > 0;
      }
    }
  }

  /** A single integer is an index query for that index. */
  lemma {:induction false} IndexFromItoa(n: int)
    requires MinInt64 <= n <= MaxInt64
    ensures IndexQuery(Itoa(n)) == Ok(Index(n))
  {
    ItoaNoColon(n);
    SplitJoin([Itoa(n)], ":");
    AtoiItoa(n);
  }

  /** A colon-free section that Atoi rejects fails with Atoi's error. */
  lemma {:induction false} IndexNotNumeric(q: string)
    requires ':' !in q && Atoi(q).Err?
    ensures IndexQuery(q) == Err(Atoi(q).error)
  {
    SplitJoin([q], ":");
  }

  /**
   * `start:stop`: start defaults to 1, an empty stop means the start with
   * an unbounded stop, and the step is 1.
   */
  lemma {:induction false} TwoSections(a: Option<int>, b: Option<int>)
    requires a.Some? ==> MinInt64 <= a.value <= MaxInt64
    requires b.Some? ==> MinInt64 <= b.value <= MaxInt64
    ensures var start := if a.Some? then a.value else 1;
      IndexQuery(Written(a) + ":" + Written(b)) ==
      Ok(Range(start, 1, if b.Some? then b.value else start, b.None?))
  {
    var parts := [Written(a), Written(b)];
    assert Join(parts, ":") == Written(a) + ":" + Written(b) by {
      assert parts[1..] == [Written(b)];
    }
    SplitJoin(parts, ":");
    var start := if a.Some? then a.value else 1;
    WrittenSection(a, 1);
    WrittenSection(b, start);
    WrittenSection(None, 1);
    assert Written(b) == "" <==> b.None? by {
      if b.Some? {
        WrittenSection(b, b.value + 1);
      }
    }
  }

  /**
   * `start:stop:step`: the defaults of the two-section form, the third
   * section is the step (default 1), and a zero step is an error.
   */
  lemma {:induction false} ThreeSections(a: Option<int>, b: Option<int>, s: Option<int>)
    requires a.Some? ==> MinInt64 <= a.value <= MaxInt64
    requires b.Some? ==> MinInt64 <= b.value <= MaxInt64
    requires s.Some? ==> MinInt64 <= s.value <= MaxInt64
    ensures var start := if a.Some? then a.value else 1;
      var step := if s.Some? then s.value else 1;
      IndexQuery(Written(a) + ":" + Written(b) + ":" + Written(s)) ==
      if step == 0 then Err(StepZero)
      else Ok(Range(start, step, if b.Some? then b.value else start, b.None?))
  {
    ThreeParts(a, b, s);
    var start := if a.Some? then a.value else 1;
    WrittenSection(a, 1);
    WrittenSection(b, start);
    WrittenSection(s, 1);
    assert Written(b) == "" <==> b.None? by {
      if b.Some? {
        WrittenSection(b, b.value + 1);
      }
    }
  }

  /** Three written sections joined by colons split back into the three. */
  lemma {:induction false} ThreeParts(a: Option<int>, b: Option<int>, s: Option<int>)
    ensures Split(Written(a) + ":" + Written(b) + ":" + Written(s), ":") == [Written(a), Written(b), Written(s)]
  {
    var parts := [Written(a), Written(b), Written(s)];
    assert Join(parts, ":") == Written(a) + ":" + Written(b) + ":" + Written(s) by {
      assert parts[1..] == [Written(b), Written(s)];
      assert parts[1..][1..] == [Written(s)];
      assert Join(parts[1..], ":") == Written(b) + ":" + Written(s);
      assert Join(parts, ":") == Written(a) + ":" + (Written(b) + ":" + Written(s));
    }
    SplitJoin(parts, ":");
  }

  /** `2:10:3` is start 2, step 3, stop 10. */
  lemma {:induction false} ExampleFull()
    ensures IndexQuery("2:10:3") == Ok(Range(2, 3, 10, false))
  {
    assert NatDigits(10) == NatDigits(1) + [DigitChar(0)];
    assert Itoa(10) == "10";
    assert Written(Some(2)) == "2" && Written(Some(10)) == "10" && Written(Some(3)) == "3";
    assert "2" + ":" + "10" + ":" + "3" == "2:10:3";
    ThreeSections(Some(2), Some(10), Some(3));
  }

  /** `:` is everything from field 1 on. */
  lemma {:induction false} ExampleAll()
    ensures IndexQuery(":") == Ok(Range(1, 1, 1, true))
  {
    TwoSections(None, None);
  }

  /** `1:10:0` has a zero step. */
  lemma {:induction false} ExampleZeroStep()
    ensures IndexQuery("1:10:0") == Err(StepZero)
  {
    assert NatDigits(10) == NatDigits(1) + [DigitChar(0)];
    assert Itoa(10) == "10";
    assert Written(Some(1)) == "1" && Written(Some(10)) == "10" && Written(Some(0)) == "0";
    assert "1" + ":" + "10" + ":" + "0" == "1:10:0";
    ThreeSections(Some(1), Some(10), Some(0));
  }

  /** Four or more sections are an invalid index query. */
  lemma {:induction false} TooManySections(q: string)
    requires |Split(q, ":")| > 3
    ensures IndexQuery(q) == Err(InvalidIndexQuery(q))
  {
  }
}
