/**
 * The parts of Go's `strings` package that the column selector relies on:
 * `Index`, `LastIndex`, `Split` (non-empty separator) and `Join`, stated as
 * functions over `string` (a `seq<char>`).
 */
module GoStrings {

  /** `sep` occurs in `s` starting at position `j`. */
  predicate HasAt(s: string, sep: string, j: int)
  {
    0 <= j && j + |sep| <= |s| && s[j..j + |sep|] == sep
  }

  /** `sep` occurs nowhere in `s`. */
  ghost predicate Absent(s: string, sep: string)
  {
    forall j :: !HasAt(s, sep, j)
  }

  /** Shifting `sep` by `d` positions lines it up with itself. */
  predicate IsBorder(sep: string, d: int)
  {
    0 < d < |sep| && sep[d..] == sep[..|sep| - d]
  }

  /** No proper suffix of `sep` is also a prefix of it, so two occurrences never overlap. */
  predicate NoSelfOverlap(sep: string)
  {
    forall d | 0 < d < |sep| :: !IsBorder(sep, d)
  }

  lemma {:induction false} HasAtDrop(s: string, sep: string, d: nat, j: int)
    requires d <= |s|
    ensures HasAt(s[d..], sep, j) <==> (0 <= j && HasAt(s, sep, j + d))
  {
    if 0 <= j && j + |sep| <= |s| - d {
      assert s[d..][j..j + |sep|] == s[j + d..j + d + |sep|];
    }
  }

  lemma {:induction false} HasAtTake(s: string, sep: string, n: nat, j: int)
    requires n <= |s|
    ensures HasAt(s[..n], sep, j) <==> (HasAt(s, sep, j) && j + |sep| <= n)
  {
    if 0 <= j && j + |sep| <= n {
      assert s[..n][j..j + |sep|] == s[j..j + |sep|];
    }
  }

  /** strings.Index: the first occurrence of `sep` in `s`, or -1 (IndexSpec states which). */
  function Index(s: string, sep: string): (r: int)
    ensures -1 <= r && (r >= 0 ==> r + |sep| <= |s|)
    decreases |s|
  {
    if |s| < |sep| then -1
    else if s[..|sep|] == sep then 0
    else
      var r := Index(s[1..], sep);
      if r < 0 then -1 else r + 1
  }

  /** Index finds the first occurrence, and -1 exactly when there is none. */
  lemma {:induction false} IndexSpec(s: string, sep: string)
    ensures var r := Index(s, sep);
      (r == -1 <==> Absent(s, sep)) &&
      (r >= 0 ==> HasAt(s, sep, r) && forall j :: 0 <= j < r ==> !HasAt(s, sep, j))
    decreases |s|
  {
    if |s| < |sep| {
    } else if s[..|sep|] == sep {
      assert HasAt(s, sep, 0);
    } else {
      var t := s[1..];
      IndexSpec(t, sep);
      var r := Index(t, sep);
      assert Index(s, sep) == if r < 0 then -1 else r + 1;
      forall j ensures HasAt(t, sep, j) <==> (0 <= j && HasAt(s, sep, j + 1)) {
        HasAtDrop(s, sep, 1, j);
      }
      assert !HasAt(s, sep, 0);
      if r < 0 {
        forall j ensures !HasAt(s, sep, j) {
          if j > 0 { assert !HasAt(t, sep, j - 1); }
        }
      } else {
        forall j | 0 < j < r + 1 ensures !HasAt(s, sep, j) {
          assert !HasAt(t, sep, j - 1);
        }
      }
    }
  }

  /** strings.LastIndex: the last occurrence of `sep` in `s`, or -1 (LastIndexSpec states which). */
  function LastIndex(s: string, sep: string): (r: int)
    ensures -1 <= r && (r >= 0 ==> r + |sep| <= |s|)
    decreases |s|
  {
    if |s| < |sep| then -1
    else if s[|s| - |sep|..] == sep then |s| - |sep|
    else LastIndex(s[..|s| - 1], sep)
  }

  /** LastIndex finds the last occurrence, and -1 exactly when there is none. */
  lemma {:induction false} LastIndexSpec(s: string, sep: string)
    ensures var r := LastIndex(s, sep);
      (r == -1 <==> Absent(s, sep)) &&
      (r >= 0 ==> HasAt(s, sep, r) && forall j :: r < j ==> !HasAt(s, sep, j))
    decreases |s|
  {
    if |s| < |sep| {
    } else if s[|s| - |sep|..] == sep {
      assert HasAt(s, sep, |s| - |sep|);
    } else {
      var t := s[..|s| - 1];
      LastIndexSpec(t, sep);
      assert !HasAt(s, sep, |s| - |sep|);
      forall j ensures HasAt(t, sep, j) <==> HasAt(s, sep, j) {
        HasAtTake(s, sep, |s| - 1, j);
      }
      assert LastIndex(s, sep) == LastIndex(t, sep);
      assert Absent(s, sep) <==> Absent(t, sep);
    }
  }

  /** strings.Split with a non-empty separator: the pieces between successive leftmost occurrences. */
  function Split(s: string, sep: string): (r: seq<string>)
    requires sep != ""
    ensures |r| >= 1
    decreases |s|
  {
    var m := Index(s, sep);
    if m < 0 then [s] else [s[..m]] + Split(s[m + |sep|..], sep)
  }

  /** strings.Split with the empty separator: one piece per character. */
  function Explode(s: string): (r: seq<string>)
    ensures |r| == |s|
    ensures forall i :: 0 <= i < |s| ==> r[i] == [s[i]]
  {
    seq(|s|, i requires 0 <= i < |s| => [s[i]])
  }

  /** strings.Split for any separator. */
  function SplitAny(s: string, sep: string): seq<string>
  {
    if sep == "" then Explode(s) else Split(s, sep)
  }

  /** strings.Join. */
  function Join(parts: seq<string>, sep: string): string
  {
    if |parts| == 0 then ""
    else if |parts| == 1 then parts[0]
    else parts[0] + sep + Join(parts[1..], sep)
  }

  /** Joining the pieces of a split with the same separator gives the line back. */
  lemma {:induction false} JoinSplit(s: string, sep: string)
    requires sep != ""
    ensures Join(Split(s, sep), sep) == s
    decreases |s|
  {
    var m := Index(s, sep);
    if m >= 0 {
      var first, rest := s[..m], s[m + |sep|..];
      IndexFound(s, sep);
      var tail := Split(rest, sep);
      JoinSplit(rest, sep);
      SplitAt(s, sep, m);
      JoinCons(first, tail, sep);
      AroundOccurrence(s, sep, m);
    }
  }

  /** Text holding the separator at `m` is the text before it, the separator and the text after it. */
  lemma {:induction false} AroundOccurrence(r: string, sep: string, m: int)
    requires HasAt(r, sep, m)
    ensures r == r[..m] + sep + r[m + |sep|..]
  {
    assert r[m..] == r[m..m + |sep|] + r[m + |sep|..];
    assert r == r[..m] + r[m..];
  }

  /** Joining the one-character pieces with the empty separator gives the line back. */
  lemma {:induction false} JoinExplode(s: string)
    ensures Join(Explode(s), "") == s
    decreases |s|
  {
    if |s| > 1 {
      JoinExplode(s[1..]);
      assert Explode(s)[1..] == Explode(s[1..]);
      assert s == [s[0]] + "" + s[1..];
    } else if |s| == 1 {
      assert s == [s[0]];
    }
  }

  /** Joining the pieces of strings.Split with the same separator gives the line back, for every separator. */
  lemma {:induction false} SplitAnyJoin(s: string, sep: string)
    ensures Join(SplitAny(s, sep), sep) == s
  {
    if sep == "" {
      JoinExplode(s);
    } else {
      JoinSplit(s, sep);
    }
  }

  /** The position Index reports holds an occurrence. */
  lemma {:induction false} IndexFound(s: string, sep: string)
    ensures Index(s, sep) >= 0 ==> HasAt(s, sep, Index(s, sep))
  {
    IndexSpec(s, sep);
  }

  /** Joining a piece in front of a non-empty list puts one separator after it. */
  lemma {:induction false} JoinCons(x: string, tail: seq<string>, sep: string)
    requires tail != []
    ensures Join([x] + tail, sep) == x + sep + Join(tail, sep)
  {
    assert ([x] + tail)[1..] == tail;
  }

  /** Joining a non-empty prefix and a non-empty suffix with one separator between them. */
  lemma {:induction false} JoinAppend(xs: seq<string>, ys: seq<string>, sep: string)
    requires xs != [] && ys != []
    ensures Join(xs + ys, sep) == Join(xs, sep) + sep + Join(ys, sep)
    decreases |xs|
  {
    if |xs| == 1 {
      assert (xs + ys)[1..] == ys;
    } else {
      JoinAppend(xs[1..], ys, sep);
      assert (xs + ys)[1..] == xs[1..] + ys;
    }
  }

  lemma {:induction false} OverlapBorder(s: string, sep: string, i: int, m: int)
    requires HasAt(s, sep, i) && HasAt(s, sep, m) && i < m < i + |sep|
    ensures IsBorder(sep, m - i)
  {
    var d := m - i;
    var k := |sep|;
    assert s[i..i + k][d..] == s[m..m + k][..k - d];
  }

  /** Occurrences of a separator that cannot overlap itself are at least |sep| apart. */
  lemma {:induction false} OverlapImpossible(s: string, sep: string, i: int, m: int)
    requires NoSelfOverlap(sep)
    requires HasAt(s, sep, i) && HasAt(s, sep, m) && i < m
    ensures i + |sep| <= m
  {
    if m < i + |sep| {
      OverlapBorder(s, sep, i, m);
    }
  }

  lemma {:induction false} IndexIs(s: string, sep: string, r: int)
    requires HasAt(s, sep, r)
    requires forall j :: 0 <= j < r ==> !HasAt(s, sep, j)
    ensures Index(s, sep) == r
  {
    IndexSpec(s, sep);
    var x := Index(s, sep);
    assert x >= 0;
    assert !(x < r);
  }

  lemma {:induction false} LastIndexIs(s: string, sep: string, r: int)
    requires HasAt(s, sep, r)
    requires forall j :: r < j ==> !HasAt(s, sep, j)
    ensures LastIndex(s, sep) == r
  {
    LastIndexSpec(s, sep);
    var x := LastIndex(s, sep);
    assert x >= 0;
    assert !(x > r);
  }

  /** Nothing follows the last occurrence. */
  lemma {:induction false} AbsentAfterLast(s: string, sep: string, m: int)
    requires sep != "" && m == LastIndex(s, sep) >= 0
    ensures Absent(s[m + |sep|..], sep)
  {
    LastIndexSpec(s, sep);
    var t := s[m + |sep|..];
    forall j ensures !HasAt(t, sep, j) {
      HasAtDrop(s, sep, m + |sep|, j);
    }
  }

  /** Nothing lies wholly before the first occurrence. */
  lemma {:induction false} AbsentBeforeFirst(s: string, sep: string, i: int)
    requires sep != "" && i == Index(s, sep) >= 0
    ensures Absent(s[..i], sep)
  {
    IndexSpec(s, sep);
    var t := s[..i];
    forall j ensures !HasAt(t, sep, j) {
      HasAtTake(s, sep, i, j);
    }
  }

  lemma {:induction false} IndexOfTake(s: string, sep: string, i: int, n: int)
    requires i == Index(s, sep) >= 0 && i + |sep| <= n <= |s|
    ensures Index(s[..n], sep) == i
  {
    IndexSpec(s, sep);
    var t := s[..n];
    HasAtTake(s, sep, n, i);
    forall j | 0 <= j < i ensures !HasAt(t, sep, j) {
      HasAtTake(s, sep, n, j);
    }
    IndexIs(t, sep, i);
  }

  lemma {:induction false} LastIndexOfDrop(s: string, sep: string, m: int, d: int)
    requires m == LastIndex(s, sep) >= 0 && 0 <= d <= m
    ensures LastIndex(s[d..], sep) == m - d
  {
    LastIndexSpec(s, sep);
    var t := s[d..];
    HasAtDrop(s, sep, d, m - d);
    forall j | m - d < j ensures !HasAt(t, sep, j) {
      HasAtDrop(s, sep, d, j);
    }
    LastIndexIs(t, sep, m - d);
  }

  /** Split unfolded once at a known first occurrence. */
  lemma {:induction false} SplitAt(s: string, sep: string, i: int)
    requires sep != "" && i == Index(s, sep) >= 0
    ensures Split(s, sep) == [s[..i]] + Split(s[i + |sep|..], sep)
  {
  }

  /** Split of a string where `sep` does not occur. */
  lemma {:induction false} SplitAbsent(s: string, sep: string)
    requires sep != "" && Absent(s, sep)
    ensures Split(s, sep) == [s]
  {
    IndexSpec(s, sep);
  }

  /** The part before the last occurrence splits at the same first occurrence. */
  lemma {:induction false} SplitLeftStep(s: string, sep: string, i: int, m: int)
    requires sep != "" && i == Index(s, sep) >= 0 && i + |sep| <= m <= |s|
    ensures Split(s[..m], sep) == [s[..i]] + Split(s[i + |sep|..m], sep)
  {
    var left := s[..m];
    IndexOfTake(s, sep, i, m);
    SplitAt(left, sep, i);
    assert left[..i] == s[..i];
    assert left[i + |sep|..] == s[i + |sep|..m];
  }

  /** When the first occurrence is also the last, the split has exactly two pieces. */
  lemma {:induction false} SplitOnlyOne(s: string, sep: string, m: int)
    requires sep != "" && m == Index(s, sep) == LastIndex(s, sep) >= 0
    ensures Split(s, sep) == Split(s[..m], sep) + [s[m + |sep|..]]
  {
    AbsentAfterLast(s, sep, m);
    AbsentBeforeFirst(s, sep, m);
    SplitAbsent(s[..m], sep);
    SplitAbsent(s[m + |sep|..], sep);
    SplitAt(s, sep, m);
  }

  /** One step of SplitAtLast: the first piece, then the rest split the same way. */
  lemma {:induction false} SplitAtLastStep(s: string, sep: string, i: int, m: int, t: string, mt: int)
    requires sep != "" && i == Index(s, sep) >= 0 && i + |sep| <= m <= |s| - |sep|
    requires t == s[i + |sep|..] && mt == m - i - |sep|
    requires Split(t, sep) == Split(t[..mt], sep) + [t[mt + |sep|..]]
    ensures Split(s, sep) == Split(s[..m], sep) + [s[m + |sep|..]]
  {
    var k := |sep|;
    var first, middle, last := s[..i], s[i + k..m], s[m + k..];
    DropTake(s, i + k, m, k);
    assert t[..mt] == middle && t[mt + k..] == last;
    SplitLeftStep(s, sep, i, m);
    SplitAt(s, sep, i);
    ConsChain(Split(s, sep), Split(s[..m], sep), first, Split(t, sep), Split(middle, sep), last);
  }

  /** If a = [x] + b, b = c + [y] and l = [x] + c, then a = l + [y]. */
  lemma {:induction false} ConsChain<T>(a: seq<T>, l: seq<T>, x: T, b: seq<T>, c: seq<T>, y: T)
    requires a == [x] + b && b == c + [y] && l == [x] + c
    ensures a == l + [y]
  {
    assert [x] + (c + [y]) == ([x] + c) + [y];
  }

  lemma {:induction false} DropTake(s: string, d: int, m: int, k: nat)
    requires 0 <= d <= m && m + k <= |s|
    ensures s[d..][..m - d] == s[d..m]
    ensures s[d..][m - d + k..] == s[m + k..]
  {
  }

  /** Distinct first and last occurrences of a non-overlapping separator do not overlap. */
  lemma {:induction false} FirstBeforeLast(s: string, sep: string, i: int, m: int)
    requires sep != "" && NoSelfOverlap(sep)
    requires i == Index(s, sep) && m == LastIndex(s, sep) >= 0
    ensures 0 <= i && (i == m || i + |sep| <= m)
  {
    IndexSpec(s, sep);
    LastIndexSpec(s, sep);
    if i != m {
      OverlapImpossible(s, sep, i, m);
    }
  }

  /**
   * Cutting the last piece off at the last occurrence `m` of a separator that
   * cannot overlap itself agrees with splitting from the left.
   */
  lemma {:induction false} SplitAtLast(s: string, sep: string, m: int)
    requires sep != "" && NoSelfOverlap(sep)
    requires m == LastIndex(s, sep) >= 0
    ensures Split(s, sep) == Split(s[..m], sep) + [s[m + |sep|..]]
    decreases |s|
  {
    var k := |sep|;
    var i := Index(s, sep);
    FirstBeforeLast(s, sep, i, m);
    if i == m {
      SplitOnlyOne(s, sep, m);
    } else {
      var t := s[i + k..];
      LastIndexOfDrop(s, sep, m, i + k);
      var mt := m - i - k;
      SplitAtLast(t, sep, mt);
      SplitAtLastStep(s, sep, i, m, t, mt);
    }
  }

  lemma {:induction false} HasAtOneChar(s: string, sep: string, j: int)
    requires |sep| == 1
    ensures HasAt(s, sep, j) <==> 0 <= j < |s| && s[j] == sep[0]
  {
    if 0 <= j < |s| {
      assert s[j..j + 1] == [s[j]];
    }
  }

  /** Splitting a one-character-separated join of separator-free parts gives the parts back. */
  lemma {:induction false} SplitJoin(parts: seq<string>, sep: string)
    requires |sep| == 1 && parts != []
    requires forall i :: 0 <= i < |parts| ==> sep[0] !in parts[i]
    ensures Split(Join(parts, sep), sep) == parts
    decreases |parts|
  {
    var p := parts[0];
    assert Absent(p, sep) by {
      forall j ensures !HasAt(p, sep, j) {
        HasAtOneChar(p, sep, j);
      }
    }
    if |parts| == 1 {
      SplitAbsent(p, sep);
    } else {
      var s := Join(parts, sep);
      var rest := Join(parts[1..], sep);
      assert s == p + sep + rest;
      assert HasAt(s, sep, |p|) by {
        assert s[|p|..|p| + 1] == sep;
      }
      forall j | 0 <= j < |p| ensures !HasAt(s, sep, j) {
        HasAtOneChar(s, sep, j);
        assert s[j] == p[j];
      }
      IndexIs(s, sep, |p|);
      assert s[..|p|] == p;
      assert s[|p| + 1..] == rest;
      SplitJoin(parts[1..], sep);
      SplitAt(s, sep, |p|);
    }
  }

  /** Two separator-free pieces joined by a one-character separator split back into the two. */
  lemma {:induction false} SplitTwo(x: string, y: string, sep: string)
    requires |sep| == 1 && sep[0] !in x && sep[0] !in y
    ensures Split(x + sep + y, sep) == [x, y]
  {
    var parts := [x, y];
    assert parts[1..] == [y];
    SplitJoin(parts, sep);
  }

  /** Three separator-free pieces joined by a one-character separator split back into the three. */
  lemma {:induction false} SplitThree(x: string, y: string, z: string, sep: string)
    requires |sep| == 1 && sep[0] !in x && sep[0] !in y && sep[0] !in z
    ensures Split(x + sep + y + sep + z, sep) == [x, y, z]
  {
    var parts := [x, y, z];
    assert parts[1..] == [y, z] && parts[1..][1..] == [z];
    assert Join(parts[1..], sep) == y + sep + z;
    assert x + sep + y + sep + z == x + sep + (y + sep + z);
    SplitJoin(parts, sep);
  }
}
