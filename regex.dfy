/**
 * The regular-expression engine is not modelled; it is an abstract value
 * supplying the four operations the column selector uses from Go's
 * `regexp` package.
 */
module Regex {
  import opened Wrappers

  /** A compiled expression: the pattern text it was compiled from. */
  datatype Regexp = Regexp(pattern: string)

  datatype Matcher = Matcher(
    /** `regexp.Compile`: None when the pattern compiles, else the error text. */
    compileError: string -> Option<string>,
    /** `(*Regexp).MatchString`. */
    matchString: (string, string) -> bool,
    /** The leftmost match as a half-open span, as `FindReaderIndex` reports it. */
    find: (string, string) -> Option<(int, int)>,
    /** `(*Regexp).Split(s, -1)`. */
    split: (string, string) -> seq<string>
  )

  /** A match span lies within the searched text. */
  predicate InText(s: string, m: (int, int))
  {
    0 <= m.0 <= m.1 <= |s|
  }

  /** What every engine keeps: each reported match lies within the text searched. */
  ghost predicate SpansInText(e: Matcher)
  {
    forall p, s :: e.find(p, s).Some? ==> InText(s, e.find(p, s).value)
  }

  /**
   * An engine as Go's `regexp` package provides it. A match may be empty,
   * also at the start of the text: `,*` matches the empty text before `a`.
   */
  type Engine = e: Matcher | SpansInText(e)
    witness Matcher(_ => None, (_, _) => false, (_, _) => None, (_, _) => [])

  function Compile(e: Engine, pattern: string): (r: Result<Regexp>)
    ensures r.Ok? <==> e.compileError(pattern).None?
    ensures r.Ok? ==> r.value.pattern == pattern
  {
    match e.compileError(pattern)
    case None => Ok(Regexp(pattern))
    case Some(msg) => Err(msg)
  }

  function MatchString(e: Engine, re: Regexp, s: string): bool
  {
    e.matchString(re.pattern, s)
  }

  function Split(e: Engine, re: Regexp, s: string): seq<string>
  {
    e.split(re.pattern, s)
  }

  /** The leftmost match of `re` in `s`, if any. */
  function Find(e: Engine, re: Regexp, s: string): (r: Option<(int, int)>)
    ensures r.Some? ==> InText(s, r.value)
  {
    e.find(re.pattern, s)
  }
}
