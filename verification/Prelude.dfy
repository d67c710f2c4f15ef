/** Stock result types and the small set and sequence facts shared by the model. */
module Prelude {

  datatype Option<+T> = None | Some(value: T)

  datatype Result<+T, +E> = Ok(value: T) | Err(error: E)

  function Max(a: int, b: int): int { if a >= b then a else b }

  function MinReal(a: real, b: real): real { if a <= b then a else b }

  function MaxReal(a: real, b: real): real { if a >= b then a else b }

  function AbsReal(a: real): real { if a < 0.0 then -a else a }

  function Reverse<T>(s: seq<T>): seq<T> {
    seq(|s|, i requires 0 <= i < |s| => s[|s| - 1 - i])
  }

  function MapSeq<T, U>(f: T -> U, s: seq<T>): seq<U> {
    seq(|s|, i requires 0 <= i < |s| => f(s[i]))
  }

  lemma {:induction false} MapMore<T, U>(f: T -> U, s: seq<T>, k: nat)
    requires k < |s|
    ensures MapSeq(f, s[..k + 1]) == MapSeq(f, s[..k]) + [f(s[k])]
  {
  }

  /** The number of elements of s that satisfy p. */
  function Count<T>(p: T -> bool, s: seq<T>): nat {
    if s == [] then 0 else (if p(s[0]) then 1 else 0) + Count(p, s[1..])
  }

  lemma {:induction false} CountAppend<T>(p: T -> bool, s: seq<T>, t: seq<T>)
    ensures Count(p, s + t) == Count(p, s) + Count(p, t)
  {
    if s == [] {
      assert s + t == t;
    } else {
      assert (s + t)[0] == s[0] && (s + t)[1..] == s[1..] + t;
      CountAppend(p, s[1..], t);
    }
  }

  lemma {:induction false} CountFull<T>(f: T -> bool, s: seq<T>)
    requires forall k :: 0 <= k < |s| ==> f(s[k])
    ensures Count(f, s) == |s|
  {
    if s != [] { CountFull(f, s[1..]); }
  }

  lemma {:induction false} CountEmpty<T>(f: T -> bool, s: seq<T>)
    requires forall k :: 0 <= k < |s| ==> !f(s[k])
    ensures Count(f, s) == 0
  {
    if s != [] { CountEmpty(f, s[1..]); }
  }

  lemma {:induction false} CountImplies<T>(f: T -> bool, g: T -> bool, s: seq<T>)
    requires forall k :: 0 <= k < |s| && f(s[k]) ==> g(s[k])
    ensures Count(f, s) <= Count(g, s)
  {
    if s != [] { CountImplies(f, g, s[1..]); }
  }

  lemma {:induction false} CountPositive<T>(f: T -> bool, s: seq<T>, x: T)
    requires x in s && f(x)
    ensures Count(f, s) >= 1
  {
    if s[0] != x {
      assert s == [s[0]] + s[1..];
      CountPositive(f, s[1..], x);
    }
  }

  /** How large a count can be, and when it is all or nothing. */
  lemma {:induction false} CountExtremes<T(!new)>(f: T -> bool, s: seq<T>)
    ensures Count(f, s) <= |s|
    ensures Count(f, s) == |s| <==> forall x :: x in s ==> f(x)
    ensures Count(f, s) == 0 <==> forall x :: x in s ==> !f(x)
  {
    if s != [] {
      CountExtremes(f, s[1..]);
      assert s == [s[0]] + s[1..];
    }
  }

  /** A subset is no larger than its superset. */
  lemma {:induction false} SubsetSize<T>(a: set<T>, b: set<T>)
    requires a <= b
    ensures |a| <= |b|
  {
    if a != {} {
      var x :| x in a;
      SubsetSize(a - {x}, b - {x});
    }
  }

  predicate Distinct<T(==)>(s: seq<T>) {
    forall i, j :: 0 <= i < j < |s| ==> s[i] != s[j]
  }

  function Elements<T>(s: seq<T>): set<T> {
    set x | x in s
  }

  lemma {:induction false} ElementsSize<T>(s: seq<T>)
    ensures |Elements(s)| <= |s|
    ensures |Elements(s)| == |s| <==> Distinct(s)
  {
    if s == [] {
    } else {
      var rest := s[1..];
      ElementsSize(rest);
      assert s == [s[0]] + rest;
      assert Elements(s) == {s[0]} + Elements(rest);
      if s[0] in rest {
        assert Elements(s) == Elements(rest);
        var k :| 0 <= k < |rest| && rest[k] == s[0];
        assert s[0] == s[k + 1];
      } else {
        assert |Elements(s)| == 1 + |Elements(rest)|;
        DistinctCons(s[0], rest);
      }
    }
  }

  lemma {:induction false} DistinctCons<T>(x: T, s: seq<T>)
    requires x !in s
    ensures Distinct([x] + s) <==> Distinct(s)
  {
    var all := [x] + s;
    assert forall k :: 0 <= k < |s| ==> all[k + 1] == s[k];
    if Distinct(s) {
      forall i, j | 0 <= i < j < |all| ensures all[i] != all[j] {
        assert all[j] == s[j - 1];
        if i > 0 { assert all[i] == s[i - 1]; }
      }
    } else {
      var i, j :| 0 <= i < j < |s| && s[i] == s[j];
      assert all[i + 1] == all[j + 1];
    }
  }

  lemma {:induction false} TakeMore<T>(s: seq<T>, k: nat)
    requires k < |s|
    ensures s[..k + 1] == s[..k] + [s[k]]
  {
  }

  /** The elements of s that satisfy f, in order. */
  function Keep<T>(f: T -> bool, s: seq<T>): seq<T> {
    if s == [] then [] else Keep(f, s[..|s| - 1]) + (if f(s[|s| - 1]) then [s[|s| - 1]] else [])
  }

  lemma {:induction false} KeepSnoc<T>(f: T -> bool, s: seq<T>, x: T)
    ensures Keep(f, s + [x]) == Keep(f, s) + (if f(x) then [x] else [])
  {
    assert (s + [x])[..|s|] == s;
  }

  lemma {:induction false} KeepMembers<T(!new)>(f: T -> bool, s: seq<T>)
    ensures forall x :: x in Keep(f, s) <==> x in s && f(x)
    ensures |Keep(f, s)| <= |s|
  {
    if s != [] {
      KeepMembers(f, s[..|s| - 1]);
      assert s == s[..|s| - 1] + [s[|s| - 1]];
    }
  }

  lemma {:induction false} KeepAll<T(!new)>(f: T -> bool, s: seq<T>)
    requires forall x :: x in s ==> f(x)
    ensures Keep(f, s) == s
  {
    if s != [] {
      assert s == s[..|s| - 1] + [s[|s| - 1]];
      KeepAll(f, s[..|s| - 1]);
    }
  }

  lemma {:induction false} KeepFull<T(!new)>(f: T -> bool, s: seq<T>)
    ensures |Keep(f, s)| == |s| <==> forall x :: x in s ==> f(x)
  {
    if forall x :: x in s ==> f(x) {
      KeepAll(f, s);
    } else {
      var x :| x in s && !f(x);
      KeepDrops(f, s, x);
    }
  }

  lemma {:induction false} KeepDrops<T(!new)>(f: T -> bool, s: seq<T>, x: T)
    requires x in s && !f(x)
    ensures |Keep(f, s)| < |s|
  {
    var before, last := s[..|s| - 1], s[|s| - 1];
    assert s == before + [last];
    KeepMembers(f, before);
    if x in before { KeepDrops(f, before, x); }
  }

  lemma {:induction false} KeepDistinct<T(!new), U>(f: T -> bool, s: seq<T>, key: T -> U)
    requires forall i, j :: 0 <= i < j < |s| ==> key(s[i]) != key(s[j])
    ensures forall i, j :: 0 <= i < j < |Keep(f, s)| ==> key(Keep(f, s)[i]) != key(Keep(f, s)[j])
  {
    if s != [] {
      var before, last := s[..|s| - 1], s[|s| - 1];
      KeepDistinct(f, before, key);
      KeepMembers(f, before);
      forall x | x in Keep(f, before) ensures key(x) != key(last) {
        assert x in before;
        var i :| 0 <= i < |before| && before[i] == x;
        assert s[i] == x;
      }
    }
  }

  lemma {:induction false} KeepNone<T(!new)>(f: T -> bool, s: seq<T>)
    requires forall x :: x in s ==> !f(x)
    ensures Keep(f, s) == []
  {
    if s != [] {
      assert s == s[..|s| - 1] + [s[|s| - 1]];
      KeepNone(f, s[..|s| - 1]);
    }
  }

  function Least(xs: seq<real>): real
    requires xs != []
  {
    if |xs| == 1 then xs[0] else MinReal(xs[0], Least(xs[1..]))
  }

  function Greatest(xs: seq<real>): real
    requires xs != []
  {
    if |xs| == 1 then xs[0] else MaxReal(xs[0], Greatest(xs[1..]))
  }

  lemma {:induction false} LeastGreatestBound(xs: seq<real>)
    requires xs != []
    ensures Least(xs) in xs && Greatest(xs) in xs
    ensures Within(xs, Least(xs), Greatest(xs))
  {
    if |xs| > 1 {
      LeastGreatestBound(xs[1..]);
      assert forall k :: 1 <= k < |xs| ==> xs[k] == xs[1..][k - 1];
    }
  }

  predicate Within(xs: seq<real>, lo: real, hi: real) {
    forall k :: 0 <= k < |xs| ==> lo <= xs[k] <= hi
  }

  // ----- Products and quotients -----

  lemma {:induction false} ScaleOrder(x: real, y: real, n: real)
    requires n > 0.0
    ensures x < y ==> x * n < y * n
  {
    if x < y {
      var d := y - x;
      assert d * n > 0.0;
      assert y * n == x * n + d * n;
    }
  }

  lemma {:induction false} QuotientTimes(a: real, n: real)
    requires n != 0.0
    ensures a / n * n == a
  {
  }

  /** A quotient is compared by its numerator. */
  lemma {:induction false} QuotientBounds(a: real, n: real, x: real)
    requires n > 0.0
    ensures (a / n < x <==> a < x * n) && (x < a / n <==> x * n < a)
  {
    QuotientTimes(a, n);
    ScaleOrder(a / n, x, n);
    ScaleOrder(x, a / n, n);
  }
}
