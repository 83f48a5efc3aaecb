/**
 * Splitting a line one piece at a time, from the front at the first
 * separator or from the back at the last one, as both lazy iterators do,
 * related to splitting the whole line with strings.Split; and cutting
 * forward at the leftmost matches of a regular expression, as both
 * regular-expression iterators do.
 */
module LazySplit {
  import opened GoStrings
  import opened Fields
  import Regex
  import Wrappers

  /**
   * The fields an iterator still owes for its unsplit text `r`: nothing once
   * `r` is empty, otherwise strings.Split, filtered when empties are removed.
   */
  function Pieces(r: string, sep: string, removeEmpty: bool): seq<string>
    requires sep != ""
  {
    if r == "" then []
    else if removeEmpty then NonEmpty(Split(r, sep))
    else Split(r, sep)
  }

  /** With empties removed, the empty text needs no special case. */
  lemma {:induction false} PiecesFiltered(r: string, sep: string)
    requires sep != ""
    ensures Pieces(r, sep, true) == NonEmpty(Split(r, sep))
  {
    if r == "" {
      assert Index(r, sep) == -1;
      assert Split(r, sep) == [""];
    }
  }

  /** Text without the separator is one piece. */
  lemma {:induction false} WholePiece(r: string, sep: string)
    requires sep != "" && Index(r, sep) < 0
    ensures Split(r, sep) == [r]
    ensures Absent(r, sep)
  {
    IndexSpec(r, sep);
  }

  /** Text with the separator loses the piece before its first occurrence. */
  lemma {:induction false} FrontPiece(r: string, sep: string, m: int)
    requires sep != "" && m == Index(r, sep) >= 0
    ensures Split(r, sep) == [r[..m]] + Split(r[m + |sep|..], sep)
    ensures Absent(r[..m], sep)
    ensures r == r[..m] + sep + r[m + |sep|..]
  {
    SplitAt(r, sep, m);
    AbsentBeforeFirst(r, sep, m);
    IndexFound(r, sep);
    AroundOccurrence(r, sep, m);
  }

  /** Text without the separator, seen from the back. */
  lemma {:induction false} WholePieceBack(r: string, sep: string)
    requires sep != "" && LastIndex(r, sep) < 0
    ensures Split(r, sep) == [r]
    ensures Absent(r, sep)
  {
    LastIndexSpec(r, sep);
    SplitAbsent(r, sep);
  }

  /** The piece after the last occurrence never holds the separator. */
  lemma {:induction false} BackPieceText(r: string, sep: string, m: int)
    requires sep != "" && m == LastIndex(r, sep) >= 0
    ensures Absent(r[m + |sep|..], sep)
    ensures r == r[..m] + sep + r[m + |sep|..]
  {
    AbsentAfterLast(r, sep, m);
    LastIndexSpec(r, sep);
    AroundOccurrence(r, sep, m);
  }

  /** For a separator that cannot overlap itself the back piece is the last field of the split. */
  lemma {:induction false} BackPiece(r: string, sep: string, m: int)
    requires sep != "" && NoSelfOverlap(sep) && m == LastIndex(r, sep) >= 0
    ensures Split(r, sep) == Split(r[..m], sep) + [r[m + |sep|..]]
  {
    SplitAtLast(r, sep, m);
  }

  /** Filtered pieces after a front cut. */
  lemma {:induction false} FrontPieces(r: string, sep: string, m: int)
    requires sep != "" && m == Index(r, sep) >= 0
    ensures Pieces(r, sep, true) == NonEmpty([r[..m]]) + Pieces(r[m + |sep|..], sep, true)
  {
    FrontPiece(r, sep, m);
    PiecesFiltered(r, sep);
    PiecesFiltered(r[m + |sep|..], sep);
    NonEmptyAppend([r[..m]], Split(r[m + |sep|..], sep));
  }

  /** Filtered pieces after a back cut. */
  lemma {:induction false} BackPieces(r: string, sep: string, m: int)
    requires sep != "" && NoSelfOverlap(sep) && m == LastIndex(r, sep) >= 0
    ensures Pieces(r, sep, true) == Pieces(r[..m], sep, true) + NonEmpty([r[m + |sep|..]])
  {
    BackPiece(r, sep, m);
    PiecesFiltered(r, sep);
    PiecesFiltered(r[..m], sep);
    NonEmptyAppend(Split(r[..m], sep), [r[m + |sep|..]]);
  }

  /** The outcome of one cut: the field, whether there was one, and the text left. */
  datatype Cut = Cut(item: string, ok: bool, rest: string)

  /**
   * One cut from the front: the text before the first separator, or all of
   * `s` when there is none; with removeEmpty an empty field is skipped and
   * the cut repeated.
   */
  function FrontCut(s: string, sep: string, removeEmpty: bool): (r: Cut)
    requires sep != ""
    ensures r.ok ==> |r.rest| < |s| && (removeEmpty ==> r.item != "")
    ensures !r.ok ==> r == Cut("", false, "")
    decreases |s|
  {
    if s == "" then Cut("", false, "")
    else
      var m := Index(s, sep);
      if m < 0 then Cut(s, true, "")
      else if removeEmpty && s[..m] == "" then FrontCut(s[m + |sep|..], sep, removeEmpty)
      else Cut(s[..m], true, s[m + |sep|..])
  }

  /** One cut from the back, at the last separator. */
  function BackCut(s: string, sep: string, removeEmpty: bool): (r: Cut)
    requires sep != ""
    ensures r.ok ==> |r.rest| < |s| && (removeEmpty ==> r.item != "")
    ensures !r.ok ==> r == Cut("", false, "")
    decreases |s|
  {
    if s == "" then Cut("", false, "")
    else
      var m := LastIndex(s, sep);
      if m < 0 then Cut(s, true, "")
      else if removeEmpty && s[m + |sep|..] == "" then BackCut(s[..m], sep, removeEmpty)
      else Cut(s[m + |sep|..], true, s[..m])
  }

  /**
   * Without the filter a front cut fails only on empty text, yields a field
   * free of the separator, and is the first field of strings.Split.
   */
  lemma {:induction false} FrontCutSplit(s: string, sep: string)
    requires sep != ""
    ensures var r := FrontCut(s, sep, false);
      (r.ok <==> s != "") &&
      (r.ok ==> (Absent(r.item, sep) &&
        ((s == r.item && r.rest == "" && Split(s, sep) == [r.item]) ||
         (s == r.item + sep + r.rest && Split(s, sep) == [r.item] + Split(r.rest, sep)))))
  {
    if s != "" {
      var m := Index(s, sep);
      if m < 0 {
        WholePiece(s, sep);
      } else {
        FrontPiece(s, sep, m);
      }
    }
  }

  /** With the filter a front cut takes the first of the filtered fields. */
  lemma {:induction false} FrontCutPieces(s: string, sep: string)
    requires sep != ""
    ensures var r := FrontCut(s, sep, true);
      Pieces(s, sep, true) == (if r.ok then [r.item] else []) + Pieces(r.rest, sep, true)
    decreases |s|
  {
    if s != "" {
      var m := Index(s, sep);
      if m < 0 {
        WholePiece(s, sep);
        NonEmptyOne(s);
      } else {
        FrontPieces(s, sep, m);
        NonEmptyOne(s[..m]);
        if s[..m] == "" {
          FrontCutPieces(s[m + |sep|..], sep);
        }
      }
    }
  }

  /**
   * Without the filter a back cut fails only on empty text and yields a
   * field free of the separator that ends the text.
   */
  lemma {:induction false} BackCutText(s: string, sep: string)
    requires sep != ""
    ensures var r := BackCut(s, sep, false);
      (r.ok <==> s != "") &&
      (r.ok ==> (Absent(r.item, sep) && ((s == r.item && r.rest == "") || s == r.rest + sep + r.item)))
  {
    if s != "" {
      var m := LastIndex(s, sep);
      if m < 0 {
        WholePieceBack(s, sep);
      } else {
        BackPieceText(s, sep, m);
      }
    }
  }

  /** For a separator that cannot overlap itself, the back cut is the last field of strings.Split. */
  lemma {:induction false} BackCutSplit(s: string, sep: string)
    requires sep != "" && NoSelfOverlap(sep)
    ensures var r := BackCut(s, sep, false);
      r.ok ==> ((r.rest == "" && Split(s, sep) == [r.item]) || Split(s, sep) == Split(r.rest, sep) + [r.item])
  {
    if s != "" {
      var m := LastIndex(s, sep);
      if m < 0 {
        WholePieceBack(s, sep);
      } else {
        BackPiece(s, sep, m);
      }
    }
  }

  /** With the filter and a separator that cannot overlap itself, a back cut takes the last filtered field. */
  lemma {:induction false} BackCutPieces(s: string, sep: string)
    requires sep != "" && NoSelfOverlap(sep)
    ensures var r := BackCut(s, sep, true);
      Pieces(s, sep, true) == Pieces(r.rest, sep, true) + (if r.ok then [r.item] else [])
    decreases |s|
  {
    if s != "" {
      var m := LastIndex(s, sep);
      if m < 0 {
        WholePieceBack(s, sep);
        NonEmptyOne(s);
      } else {
        BackPieces(s, sep, m);
        NonEmptyOne(s[m + |sep|..]);
        if s[m + |sep|..] == "" {
          BackCutPieces(s[..m], sep);
        }
      }
    }
  }
  /**
   * Cutting `s` forward ends: every match met on the way ends after the
   * start of the remaining text. A match that is empty at the very start
   * (`,*` before `a`) cuts off nothing, and Go's loop over Next never ends.
   */
  predicate CutsEnd(e: Regex.Engine, re: Regex.Regexp, s: string): (r: bool)
    ensures r ==> SkipEnds(e, re, s)
    decreases |s|
  {
    s == "" ||
    match Regex.Find(e, re, s)
    case None => true
    case Some(m) => m.1 > 0 && CutsEnd(e, re, s[m.1..])
  }

  /**
   * Skipping empty fields ends: every match met while the text before it
   * is empty ends after the start. Otherwise Next with removeEmpty calls
   * itself forever.
   */
  predicate SkipEnds(e: Regex.Engine, re: Regex.Regexp, s: string)
    decreases |s|
  {
    s == "" ||
    match Regex.Find(e, re, s)
    case None => true
    case Some(m) => m.0 == 0 ==> m.1 > 0 && SkipEnds(e, re, s[m.1..])
  }

  /** The forward cuts of `s` at the leftmost matches of `re`. */
  function Cuts(e: Regex.Engine, re: Regex.Regexp, s: string, removeEmpty: bool): seq<string>
    requires CutsEnd(e, re, s)
    decreases |s|
  {
    if s == "" then []
    else match Regex.Find(e, re, s)
      case None => [s]
      case Some(m) =>
        var a := s[..m.0];
        (if removeEmpty && a == "" then [] else [a]) + Cuts(e, re, s[m.1..], removeEmpty)
  }

  /**
   * One forward cut at the leftmost match: the text before it, or all of `s`
   * when there is none; with removeEmpty an empty field is skipped.
   */
  function RegexCut(e: Regex.Engine, re: Regex.Regexp, s: string, removeEmpty: bool): (r: Cut)
    requires removeEmpty ==> SkipEnds(e, re, s)
    ensures r.ok ==> |r.rest| <= |s| && (removeEmpty ==> r.item != "" && |r.rest| < |s|)
    ensures r.ok ==> r.rest == s[|s| - |r.rest|..]
    ensures !r.ok ==> r == Cut("", false, "")
    decreases |s|
  {
    if s == "" then Cut("", false, "")
    else match Regex.Find(e, re, s)
      case None => Cut(s, true, "")
      case Some(m) =>
        if removeEmpty && s[..m.0] == "" then RegexCut(e, re, s[m.1..], removeEmpty)
        else Cut(s[..m.0], true, s[m.1..])
  }

  /** A cut takes the first of the remaining cuts; without the filter it fails only on empty text. */
  lemma {:induction false} RegexCutCuts(e: Regex.Engine, re: Regex.Regexp, s: string, removeEmpty: bool)
    requires CutsEnd(e, re, s)
    ensures var r := RegexCut(e, re, s, removeEmpty);
      CutsEnd(e, re, r.rest) && (r.ok ==> |r.rest| < |s|) &&
      Cuts(e, re, s, removeEmpty) == (if r.ok then [r.item] else []) + Cuts(e, re, r.rest, removeEmpty) &&
      (!removeEmpty ==> (r.ok <==> s != ""))
    decreases |s|
  {
    var r := RegexCut(e, re, s, removeEmpty);
    if s == "" {
      assert r == Cut("", false, "");
      assert Cuts(e, re, s, removeEmpty) == [];
    } else {
      match Regex.Find(e, re, s)
      case None =>
        assert r == Cut(s, true, "");
        assert Cuts(e, re, s, removeEmpty) == [s];
        assert Cuts(e, re, "", removeEmpty) == [];
      case Some(m) =>
        assert m.1 > 0 && CutsEnd(e, re, s[m.1..]);
        var a, t := s[..m.0], s[m.1..];
        if removeEmpty && a == "" {
          RegexCutCuts(e, re, t, removeEmpty);
          assert r == RegexCut(e, re, t, removeEmpty);
          assert Cuts(e, re, s, removeEmpty) == [] + Cuts(e, re, t, removeEmpty);
        } else {
          assert r == Cut(a, true, t);
          assert Cuts(e, re, s, removeEmpty) == [a] + Cuts(e, re, t, removeEmpty);
        }
    }
  }

  /** A regular-expression cut moves its field from the uncut text to the end of the front span: the fields stay the same. */
  lemma {:induction false} RegexNextView(e: Regex.Engine, re: Regex.Regexp, b: map<int, string>, h: nat, t: string, removeEmpty: bool,
                      item: string, ok: bool, rest: string)
    requires CutsEnd(e, re, t) && forall k :: 1 <= k <= h ==> k in b
    requires RegexCut(e, re, t, removeEmpty) == Cut(item, ok, rest)
    ensures CutsEnd(e, re, rest) && (ok ==> |rest| < |t|)
    ensures ok ==> (Span(b[h + 1 := item], 1, h + 2) + Cuts(e, re, rest, removeEmpty) ==
      Span(b, 1, h + 1) + Cuts(e, re, t, removeEmpty))
    ensures !ok ==> Cuts(e, re, rest, removeEmpty) == Cuts(e, re, t, removeEmpty)
  {
    RegexCutCuts(e, re, t, removeEmpty);
    if ok {
      SpanSnoc(b, 1, h + 1, item);
      var f, p := Span(b, 1, h + 1), Cuts(e, re, rest, removeEmpty);
      assert Cuts(e, re, t, removeEmpty) == [item] + p;
      assert Span(b[h + 1 := item], 1, h + 2) == f + [item];
      assert (f + [item]) + p == f + ([item] + p);
    }
  }

  /**
   * A match that is empty at the start of non-empty text cuts off an empty
   * field and leaves the text as it was, so every later Next meets the same
   * match: the cuts never end, and with removeEmpty Next never returns.
   */
  lemma {:induction false} EmptyMatchAtStart(e: Regex.Engine, re: Regex.Regexp, s: string)
    requires s != "" && Regex.Find(e, re, s) == Wrappers.Some((0, 0))
    ensures RegexCut(e, re, s, false) == Cut("", true, s)
    ensures !CutsEnd(e, re, s) && !SkipEnds(e, re, s)
  {
    assert s[..0] == "" && s[0..] == s;
  }

  /** Removing empties while cutting is filtering the unfiltered cuts. */
  lemma {:induction false} CutsFiltered(e: Regex.Engine, re: Regex.Regexp, s: string)
    requires CutsEnd(e, re, s)
    ensures Cuts(e, re, s, true) == NonEmpty(Cuts(e, re, s, false))
    ensures NoEmpty(Cuts(e, re, s, true))
    decreases |s|
  {
    if s != "" {
      match Regex.Find(e, re, s)
      case None =>
        NonEmptyOne(s);
      case Some(m) =>
        var a := s[..m.0];
        CutsFiltered(e, re, s[m.1..]);
        NonEmptyOne(a);
        NonEmptyAppend([a], Cuts(e, re, s[m.1..], false));
    }
  }
}
