/**
 * internal/column/switch.go: the switch selector `begin:end`, written like
 * the two-address form of sed and awk. A begin address switches output on
 * and an end address switches it off; an end of the form +N or -N instead
 * writes the N fields after or before every field the begin address
 * matches. An address is a 1-based field number or a /regular expression/.
 */
module InternalSwitch {
  import opened Wrappers
  import opened GoStrconv
  import Regex
  import InternalIterator
  import InternalOutput

  /** A field number (`re` is None) or a compiled regular expression. */
  datatype Address = Address(re: Option<Regex.Regexp>, num: int)

  datatype EndAddress = EndAddress(address: Address, isAroundContext: bool)

  datatype SwitchSelector = SwitchSelector(begin: Address, end: EndAddress)

  /** Whether field `s`, at 0-based position `index`, is the one the address names. */
  predicate Match(e: Regex.Engine, a: Address, s: string, index: int)
  {
    match a.re
    case None => a.num - 1 == index
    case Some(re) => Regex.MatchString(e, re, s)
  }

  /** between: `a` clamped to the range; below `min` it becomes 0, which is `min` at every call. */
  function Between(a: int, max: int, min: int): (r: int)
    ensures min == 0 && 0 <= max ==> 0 <= r <= max
    ensures min <= a <= max ==> r == a
  {
    if a < min then 0
    else if a > max then max
    else a
  }

  function Abs(a: int): (r: nat)
    ensures r == a || r == -a
  {
    if a < 0 then -a else a
  }

  /**
   * The fields written for a match at position `i` with context `num`:
   * the `-num` fields before it and itself, or itself and the `num` fields
   * after it, cut off at either end of the row.
   */
  function Window(strs: seq<string>, i: int, num: int): (r: seq<string>)
    requires 0 <= i < |strs|
    ensures num < 0 ==> r == strs[if i + num < 0 then 0 else i + num..i + 1]
    ensures num >= 0 ==> r == strs[i..if i + num + 1 > |strs| then |strs| else i + num + 1]
  {
    var m := |strs|;
    if num < 0 then strs[Between(i + num, m, 0)..Between(i + 1, m, 0)]
    else strs[Between(i, m, 0)..Between(i + num + 1, m, 0)]
  }

  /** The around-context output after the first `n` fields: a window for every match. */
  function Around(e: Regex.Engine, begin: Address, num: int, strs: seq<string>, n: nat): seq<string>
    requires n <= |strs|
  {
    if n == 0 then []
    else
      Around(e, begin, num, strs, n - 1) +
      (if Match(e, begin, strs[n - 1], n - 1) then Window(strs, n - 1, num) else [])
  }

  /**
   * The switching output after the first `n` fields, and whether output is
   * on: a field is written while output is on or when the begin address
   * turns it on; the end address is only checked on fields after that one.
   */
  function Toggle(e: Regex.Engine, begin: Address, end: Address, strs: seq<string>, n: nat): (seq<string>, bool)
    requires n <= |strs|
  {
    if n == 0 then ([], false)
    else
      var (rt, st) := Toggle(e, begin, end, strs, n - 1);
      var v := strs[n - 1];
      if st then (rt + [v], !Match(e, end, v, n - 1))
      else if Match(e, begin, v, n - 1) then (rt + [v], true)
      else (rt, false)
  }

  /** What Select writes for a row. */
  function Selected(e: Regex.Engine, s: SwitchSelector, strs: seq<string>): seq<string>
  {
    if s.end.isAroundContext then Around(e, s.begin, s.end.address.num, strs, |strs|)
    else Toggle(e, s.begin, s.end.address, strs, |strs|).0
  }

  /** The around-context loop. */
  method SelectAround(e: Regex.Engine, begin: Address, num: int, strs: seq<string>) returns (rt: seq<string>)
    ensures rt == Around(e, begin, num, strs, |strs|)
  {
    var maximum := |strs|;
    var minimum := 0;
    rt := [];
    var i := 0;
    while i < |strs|
      invariant 0 <= i <= |strs|
      invariant rt == Around(e, begin, num, strs, i)
    {
      var v := strs[i];
      if Match(e, begin, v, i) {
        if num < 0 {
          rt := rt + strs[Between(i + num, maximum, minimum)..Between(i + 1, maximum, minimum)];
        } else {
          rt := rt + strs[Between(i, maximum, minimum)..Between(i + num + 1, maximum, minimum)];
        }
      }
      i := i + 1;
    }
  }

  /** The switching loop. */
  method SelectToggle(e: Regex.Engine, begin: Address, end: Address, strs: seq<string>) returns (rt: seq<string>)
    ensures rt == Toggle(e, begin, end, strs, |strs|).0
  {
    var st := false;
    rt := [];
    var i := 0;
    while i < |strs|
      invariant 0 <= i <= |strs|
      invariant (rt, st) == Toggle(e, begin, end, strs, i)
    {
      var v := strs[i];
      if st {
        rt := rt + [v];
        if Match(e, end, v, i) {
          st := false;
        }
      } else {
        st := Match(e, begin, v, i);
        if st {
          rt := rt + [v];
        }
      }
      i := i + 1;
    }
  }

  /** Select: split the whole line, pick the fields, write them. */
  method Select(e: Regex.Engine, s: SwitchSelector, w: InternalOutput.Writer, it: InternalIterator.Iterator)
    requires it.Valid() && w.Valid()
    modifies w, it
    ensures it.Valid() && w.Valid()
    ensures var strs := if old(it.cache).Some? then old(it.cache).value else old(it.View());
      w.Pending() == old(w.Pending()) + Selected(e, s, strs)
  {
    var strs := it.ToArray();
    var rt;
    if s.end.isAroundContext {
      rt := SelectAround(e, s.begin, s.end.address.num, strs);
    } else {
      rt := SelectToggle(e, s.begin, s.end.address, strs);
    }
    w.Write(rt);
  }

  /** The positions of the fields the switching loop writes, in the order it writes them. */
  function ToggleKept(e: Regex.Engine, begin: Address, end: Address, strs: seq<string>, n: nat): seq<nat>
    requires n <= |strs|
  {
    if n == 0 then []
    else
      var kept := ToggleKept(e, begin, end, strs, n - 1);
      if Toggle(e, begin, end, strs, n - 1).1 || Match(e, begin, strs[n - 1], n - 1) then kept + [n - 1]
      else kept
  }

  /**
   * The switching output is a subsequence of the row: the fields at strictly
   * increasing positions, each written at most once and in row order.
   */
  lemma {:induction false} ToggleFromRow(e: Regex.Engine, begin: Address, end: Address, strs: seq<string>, n: nat)
    requires n <= |strs|
    ensures var rt := Toggle(e, begin, end, strs, n).0;
      var kept := ToggleKept(e, begin, end, strs, n);
      |kept| == |rt| <= n &&
      (forall k :: 0 <= k < |kept| ==> kept[k] < n && rt[k] == strs[kept[k]]) &&
      (forall j, k :: 0 <= j < k < |kept| ==> kept[j] < kept[k])
    ensures forall x :: x in Toggle(e, begin, end, strs, n).0 ==> x in strs[..n]
  {
    if n > 0 {
      ToggleFromRow(e, begin, end, strs, n - 1);
      assert strs[..n] == strs[..n - 1] + [strs[n - 1]];
    }
  }

  /**
   * With field numbers b and f for begin and end, output switches on at
   * field b and off after field f, if f comes later; otherwise it stays on
   * to the end of the row.
   */
  lemma {:induction false} ToggleNumbersPrefix(e: Regex.Engine, b: int, f: int, strs: seq<string>, n: nat)
    requires 1 <= b && n <= |strs|
    ensures var (rt, st) := Toggle(e, Address(None, b), Address(None, f), strs, n);
      if n < b then rt == [] && !st
      else if b < f <= n then rt == strs[b - 1..f] && !st
      else rt == strs[b - 1..n] && st
  {
    if n > 0 {
      ToggleNumbersPrefix(e, b, f, strs, n - 1);
      var (rt, st) := Toggle(e, Address(None, b), Address(None, f), strs, n - 1);
      if n - 1 >= b && !(b < f <= n - 1) {
        assert strs[b - 1..n] == strs[b - 1..n - 1] + [strs[n - 1]];
      }
    }
  }

  /** The switch N:M over field numbers writes fields N through M, or N to the end when M is not after N. */
  lemma {:induction false} ToggleNumbers(e: Regex.Engine, b: int, f: int, strs: seq<string>)
    requires 1 <= b <= |strs|
    ensures Selected(e, SwitchSelector(Address(None, b), EndAddress(Address(None, f), false)), strs) ==
      if b < f <= |strs| then strs[b - 1..f] else strs[b - 1..]
  {
    ToggleNumbersPrefix(e, b, f, strs, |strs|);
  }

  /** With a field number for begin, only its own window is written. */
  lemma {:induction false} AroundNumberPrefix(e: Regex.Engine, b: int, num: int, strs: seq<string>, n: nat)
    requires 1 <= b <= |strs| && n <= |strs|
    ensures Around(e, Address(None, b), num, strs, n) == if n < b then [] else Window(strs, b - 1, num)
  {
    if n > 0 {
      AroundNumberPrefix(e, b, num, strs, n - 1);
      var a := Address(None, b);
      assert Match(e, a, strs[n - 1], n - 1) <==> n == b;
      var w := if n == b then Window(strs, n - 1, num) else [];
      assert Around(e, a, num, strs, n) == Around(e, a, num, strs, n - 1) + w;
      if n < b {
        assert Around(e, a, num, strs, n) == [];
      } else if n == b {
        assert Around(e, a, num, strs, n - 1) == [];
      } else {
        assert w == [];
      }
    }
  }

  /** The switch N:+K writes field N and the K fields after it; N:-K the K fields before it and field N. */
  lemma {:induction false} AroundNumber(e: Regex.Engine, b: int, num: int, strs: seq<string>)
    requires 1 <= b <= |strs|
    ensures Selected(e, SwitchSelector(Address(None, b), EndAddress(Address(None, num), true)), strs) ==
      if num < 0 then strs[if b - 1 + num < 0 then 0 else b - 1 + num..b]
      else strs[b - 1..if b + num > |strs| then |strs| else b + num]
  {
    AroundNumberPrefix(e, b, num, strs, |strs|);
  }

  /** Every field written in around-context mode comes from the row. */
  lemma {:induction false} AroundFromRow(e: Regex.Engine, begin: Address, num: int, strs: seq<string>, n: nat)
    requires n <= |strs|
    ensures forall x :: x in Around(e, begin, num, strs, n) ==> x in strs
  {
    if n > 0 {
      AroundFromRow(e, begin, num, strs, n - 1);
      var prev := Around(e, begin, num, strs, n - 1);
      var win := if Match(e, begin, strs[n - 1], n - 1) then Window(strs, n - 1, num) else [];
      assert Around(e, begin, num, strs, n) == prev + win;
      WindowFromRow(strs, n - 1, num);
      forall x | x in Around(e, begin, num, strs, n)
        ensures x in strs
      {
        assert x in prev + win;
        assert x in prev || x in win;
      }
    }
  }

  /** A window is a slice of the row. */
  lemma {:induction false} WindowFromRow(strs: seq<string>, i: int, num: int)
    requires 0 <= i < |strs|
    ensures forall x :: x in Window(strs, i, num) ==> x in strs
  {
    var m := |strs|;
    var lo, hi := if num < 0 then Between(i + num, m, 0) else Between(i, m, 0),
      if num < 0 then Between(i + 1, m, 0) else Between(i + num + 1, m, 0);
    assert Window(strs, i, num) == strs[lo..hi];
    forall x | x in strs[lo..hi]
      ensures x in strs
    {
      var k :| 0 <= k < hi - lo && strs[lo..hi][k] == x;
      assert strs[lo + k] == x;
    }
  }

  /** A field number: one or more ASCII digits, what `^\d+$` accepts. */
  predicate IsNumberAddress(q: string)
  {
    IsDigits(q)
  }

  /** `^/.+/$`: a slash, at least one character other than a newline, a slash. */
  predicate IsRegexpAddress(q: string)
  {
    |q| >= 3 && q[0] == '/' && q[|q| - 1] == '/' && forall i :: 1 <= i < |q| - 1 ==> q[i] != '\n'
  }

  /** `^[+-]\d+$`: a sign followed by one or more ASCII digits. */
  predicate IsAroundContextAddress(q: string)
  {
    |q| >= 2 && (q[0] == '+' || q[0] == '-') && IsDigits(q[1..])
  }

  function NotValidAddress(q: string): string
  {
    q + " is not valid address"
  }

  /**
   * newAddress: a field number, else the expression between the slashes
   * compiled, else an error naming the query. Atoi's and Compile's errors
   * are passed on.
   */
  function NewAddress(e: Regex.Engine, q: string): (r: Result<Address>)
    ensures IsNumberAddress(q) ==>
      (r.Ok? <==> DigitsValue(q) <= MaxInt64) && (r.Ok? ==> r.value == Address(None, DigitsValue(q)))
    ensures !IsNumberAddress(q) && IsRegexpAddress(q) ==>
      (r.Ok? <==> e.compileError(q[1..|q| - 1]).None?) &&
      (r.Ok? ==> r.value.re == Some(Regex.Regexp(q[1..|q| - 1])))
    ensures !IsNumberAddress(q) && !IsRegexpAddress(q) ==> r == Err(NotValidAddress(q))
  {
    if IsNumberAddress(q) then
      match Atoi(q)
      case Ok(num) => Ok(Address(None, num))
      case Err(msg) => Err(msg)
    else if IsRegexpAddress(q) then
      match Regex.Compile(e, q[1..|q| - 1])
      case Ok(re) => Ok(Address(Some(re), 0))
      case Err(msg) => Err(msg)
    else Err(NotValidAddress(q))
  }

  /** newEndAddress: +N or -N is an around context of N fields, anything else an ordinary address. */
  function NewEndAddress(e: Regex.Engine, q: string): (r: Result<EndAddress>)
    ensures IsAroundContextAddress(q) ==>
      (r.Ok? <==> MinInt64 <= SignedValue(q) <= MaxInt64) &&
      (r.Ok? ==> r.value == EndAddress(Address(None, SignedValue(q)), true))
    ensures !IsAroundContextAddress(q) ==>
      (r.Ok? <==> NewAddress(e, q).Ok?) && (r.Ok? ==> r.value == EndAddress(NewAddress(e, q).value, false))
  {
    if IsAroundContextAddress(q) then
      match Atoi(q)
      case Ok(num) => Ok(EndAddress(Address(None, num), true))
      case Err(msg) => Err(msg)
    else
      match NewAddress(e, q)
      case Ok(a) => Ok(EndAddress(a, false))
      case Err(msg) => Err(msg)
  }

  /** NewSwitchSelector: both addresses, or the first error. */
  function NewSwitchSelector(e: Regex.Engine, begin: string, end: string): (r: Result<SwitchSelector>)
    ensures r.Ok? <==> NewAddress(e, begin).Ok? && NewEndAddress(e, end).Ok?
    ensures r.Ok? ==> r.value == SwitchSelector(NewAddress(e, begin).value, NewEndAddress(e, end).value)
    ensures NewAddress(e, begin).Err? ==> r == Err(NewAddress(e, begin).error)
    ensures NewAddress(e, begin).Ok? && NewEndAddress(e, end).Err? ==> r == Err(NewEndAddress(e, end).error)
  {
    match NewAddress(e, begin)
    case Err(msg) => Err(msg)
    case Ok(ba) =>
      match NewEndAddress(e, end)
      case Err(msg) => Err(msg)
      case Ok(ea) => Ok(SwitchSelector(ba, ea))
  }

  /** A field number written in decimal parses to that number. */
  lemma {:induction false} AddressFromItoa(e: Regex.Engine, n: int)
    requires 0 <= n <= MaxInt64
    ensures NewAddress(e, Itoa(n)) == Ok(Address(None, n))
  {
    AtoiItoa(n);
    NatDigitsValue(n);
  }

  /** A negative number written in decimal is a context of that many fields before the match. */
  lemma {:induction false} EndAddressFromItoa(e: Regex.Engine, n: int)
    requires MinInt64 <= n < 0
    ensures NewEndAddress(e, Itoa(n)) == Ok(EndAddress(Address(None, n), true))
  {
    AtoiItoa(n);
  }

  /** `/p/` compiles `p`: the slashes are not part of the expression. */
  lemma {:induction false} RegexpAddress(e: Regex.Engine, p: string)
    requires p != [] && (forall i :: 0 <= i < |p| ==> p[i] != '\n')
    requires e.compileError(p).None?
    ensures NewAddress(e, "/" + p + "/") == Ok(Address(Some(Regex.Regexp(p)), 0))
  {
    var q := "/" + p + "/";
    assert q[1..|q| - 1] == p;
    assert !IsDigit(q[0]);
    assert forall i :: 1 <= i < |q| - 1 ==> q[i] == p[i - 1];
  }
}
