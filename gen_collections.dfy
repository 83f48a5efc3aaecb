/**
 * gen/collections.go: the generic slice helpers `Where` (filter) and
 * `Select` (map). A nil result slice is the empty sequence.
 */
module GenCollections {

  /** The elements of `t` that satisfy `p`, in their original order. */
  function Filtered<T>(t: seq<T>, p: T -> bool): seq<T>
    decreases |t|
  {
    if |t| == 0 then []
    else Filtered(t[..|t| - 1], p) + (if p(t[|t| - 1]) then [t[|t| - 1]] else [])
  }

  /** Where: keep each element the predicate accepts. */
  method Where<T>(t: seq<T>, p: T -> bool) returns (result: seq<T>)
    ensures result == Filtered(t, p)
  {
    result := [];
    var i := 0;
    while i < |t|
      invariant 0 <= i <= |t|
      invariant result == Filtered(t[..i], p)
    {
      assert t[..i + 1][..i] == t[..i];
      if p(t[i]) {
        result := result + [t[i]];
      }
      i := i + 1;
    }
    assert t[..i] == t;
  }

  /** Select: the selector applied to each element, in order. */
  method Select<T, R>(t: seq<T>, f: T -> R) returns (result: seq<R>)
    ensures |result| == |t|
    ensures forall k :: 0 <= k < |t| ==> result[k] == f(t[k])
  {
    result := [];
    var i := 0;
    while i < |t|
      invariant 0 <= i <= |t|
      invariant |result| == i
      invariant forall k :: 0 <= k < i ==> result[k] == f(t[k])
    {
      result := result + [f(t[i])];
      i := i + 1;
    }
  }

  /**
   * Where keeps exactly the accepted elements: everything it returns is
   * accepted, and every accepted element is kept as often as it occurs.
   */
  lemma {:induction false} FilteredExactly<T>(t: seq<T>, p: T -> bool)
    ensures forall x :: x in Filtered(t, p) ==> p(x) && x in t
    ensures forall x :: p(x) ==> multiset(Filtered(t, p))[x] == multiset(t)[x]
    ensures forall x :: !p(x) ==> multiset(Filtered(t, p))[x] == 0
    ensures |Filtered(t, p)| <= |t|
    decreases |t|
  {
    if |t| > 0 {
      var init := t[..|t| - 1];
      FilteredExactly(init, p);
      assert t == init + [t[|t| - 1]];
    }
  }

  /** Where keeps the original order: filtering a concatenation filters each part in turn. */
  lemma {:induction false} FilteredAppend<T>(a: seq<T>, b: seq<T>, p: T -> bool)
    ensures Filtered(a + b, p) == Filtered(a, p) + Filtered(b, p)
    decreases |b|
  {
    if |b| > 0 {
      var init := b[..|b| - 1];
      FilteredAppend(a, init, p);
      assert (a + b)[..|a + b| - 1] == a + init;
    } else {
      assert a + b == a;
    }
  }

  /** Filtering twice by the same predicate changes nothing. */
  lemma {:induction false} FilteredIdempotent<T>(t: seq<T>, p: T -> bool)
    ensures Filtered(Filtered(t, p), p) == Filtered(t, p)
    decreases |t|
  {
    if |t| > 0 {
      var init := t[..|t| - 1];
      FilteredIdempotent(init, p);
      var x := t[|t| - 1];
      if p(x) {
        var f := Filtered(init, p) + [x];
        assert f[..|f| - 1] == Filtered(init, p) && f[|f| - 1] == x;
        assert Filtered(f, p) == Filtered(Filtered(init, p), p) + [x];
        assert Filtered(t, p) == f;
      } else {
        assert Filtered(t, p) == Filtered(init, p);
      }
    }
  }
}
