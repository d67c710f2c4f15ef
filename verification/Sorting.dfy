/**
 Python's `sorted`: a stable sort by a key order, here an insertion sort whose result is
 pinned down by three facts: it permutes, it is ordered, and any two ordered permutations
 agree when the order separates the elements.
 */
module Sorting {
  import opened Prelude

  ghost predicate TotalPreorder<T(!new)>(le: (T, T) -> bool) {
    && (forall x, y :: le(x, y) || le(y, x))
    && (forall x, y, z :: le(x, y) && le(y, z) ==> le(x, z))
  }

  predicate Ordered<T>(s: seq<T>, le: (T, T) -> bool) {
    forall i, j :: 0 <= i < j < |s| ==> le(s[i], s[j])
  }

  /** The order separates any two different elements of s. */
  ghost predicate Separates<T(!new)>(s: seq<T>, le: (T, T) -> bool) {
    forall x, y :: x in s && y in s && le(x, y) && le(y, x) ==> x == y
  }

  function Insert<T>(x: T, s: seq<T>, le: (T, T) -> bool): seq<T> {
    if s == [] || le(x, s[0]) then [x] + s else [s[0]] + Insert(x, s[1..], le)
  }

  function Sort<T>(s: seq<T>, le: (T, T) -> bool): seq<T> {
    if s == [] then [] else Insert(s[0], Sort(s[1..], le), le)
  }

  lemma {:induction false} InsertPermutes<T>(x: T, s: seq<T>, le: (T, T) -> bool)
    ensures multiset(Insert(x, s, le)) == multiset(s) + multiset{x}
  {
    if s == [] || le(x, s[0]) {
    } else {
      InsertPermutes(x, s[1..], le);
      assert s == [s[0]] + s[1..];
    }
  }

  lemma {:induction false} SortPermutes<T(!new)>(s: seq<T>, le: (T, T) -> bool)
    ensures multiset(Sort(s, le)) == multiset(s)
    ensures |Sort(s, le)| == |s|
    ensures forall x :: x in Sort(s, le) <==> x in s
  {
    if s != [] {
      SortPermutes(s[1..], le);
      InsertPermutes(s[0], Sort(s[1..], le), le);
      assert s == [s[0]] + s[1..];
    }
    MultisetFacts(Sort(s, le), s);
  }

  lemma {:induction false} MultisetFacts<T(!new)>(s: seq<T>, t: seq<T>)
    requires multiset(s) == multiset(t)
    ensures |s| == |t|
    ensures forall x :: x in s <==> x in t
  {
    assert |multiset(s)| == |s| && |multiset(t)| == |t|;
    forall x ensures x in s <==> x in t {
      assert x in s <==> x in multiset(s);
      assert x in t <==> x in multiset(t);
    }
  }

  lemma {:induction false} InsertOrdered<T(!new)>(x: T, s: seq<T>, le: (T, T) -> bool)
    requires TotalPreorder(le) && Ordered(s, le)
    ensures Ordered(Insert(x, s, le), le)
  {
    if s == [] {
    } else if le(x, s[0]) {
      forall k | 0 <= k < |s| ensures le(x, s[k]) {
        if k > 0 { assert le(s[0], s[k]); }
      }
    } else {
      var rest := Insert(x, s[1..], le);
      assert Ordered(s[1..], le);
      InsertOrdered(x, s[1..], le);
      InsertPermutes(x, s[1..], le);
      forall k | 0 <= k < |rest| ensures le(s[0], rest[k]) {
        assert rest[k] in multiset(s[1..]) + multiset{x};
        if rest[k] != x {
          var m :| 0 <= m < |s[1..]| && s[1..][m] == rest[k];
          assert le(s[0], s[m + 1]);
        }
      }
    }
  }

  lemma {:induction false} SortOrdered<T(!new)>(s: seq<T>, le: (T, T) -> bool)
    requires TotalPreorder(le)
    ensures Ordered(Sort(s, le), le)
  {
    if s != [] {
      SortOrdered(s[1..], le);
      InsertOrdered(s[0], Sort(s[1..], le), le);
    }
  }

  lemma {:induction false} FirstIsLeast<T(!new)>(s: seq<T>, t: seq<T>, le: (T, T) -> bool)
    requires s != [] && t != [] && t[0] in s && Ordered(s, le) && TotalPreorder(le)
    ensures le(s[0], t[0])
  {
    var j :| 0 <= j < |s| && s[j] == t[0];
    assert le(s[0], s[0]);
  }

  /** Two ordered permutations of the same elements are the same sequence. */
  lemma {:induction false} OrderedUnique<T(!new)>(s: seq<T>, t: seq<T>, le: (T, T) -> bool)
    requires multiset(s) == multiset(t)
    requires Ordered(s, le) && Ordered(t, le) && TotalPreorder(le)
    requires Separates(s, le)
    ensures s == t
  {
    MultisetFacts(s, t);
    if s != [] {
      FirstIsLeast(s, t, le);
      FirstIsLeast(t, s, le);
      assert s[0] == t[0];
      TailsAgree(s, t);
      OrderedUnique(s[1..], t[1..], le);
    }
  }

  lemma {:induction false} TailsAgree<T>(s: seq<T>, t: seq<T>)
    requires s != [] && t != [] && s[0] == t[0] && multiset(s) == multiset(t)
    ensures multiset(s[1..]) == multiset(t[1..]) && s == [s[0]] + s[1..] && t == [s[0]] + t[1..]
  {
    assert s == [s[0]] + s[1..] && t == [t[0]] + t[1..];
    assert multiset(s[1..]) == multiset(s) - multiset{s[0]};
    assert multiset(t[1..]) == multiset(t) - multiset{t[0]};
  }

  /** Sorting forgets the input order whenever the key order separates the elements. */
  lemma {:induction false} SortForgetsOrder<T(!new)>(s: seq<T>, t: seq<T>, le: (T, T) -> bool)
    requires TotalPreorder(le) && multiset(s) == multiset(t) && Separates(s, le)
    ensures Sort(s, le) == Sort(t, le)
  {
    SortPermutes(s, le);
    SortPermutes(t, le);
    SortOrdered(s, le);
    SortOrdered(t, le);
    OrderedUnique(Sort(s, le), Sort(t, le), le);
  }

  /** A key-preserving rewrite of the elements commutes with sorting. */
  lemma {:induction false} SortCommutes<T(!new), U>(s: seq<T>, f: T -> U, le: (T, T) -> bool, leU: (U, U) -> bool)
    requires forall x, y :: x in s && y in s ==> (le(x, y) <==> leU(f(x), f(y)))
    ensures Sort(MapSeq(f, s), leU) == MapSeq(f, Sort(s, le))
  {
    if s != [] {
      var rest := s[1..];
      SortCommutes(rest, f, le, leU);
      SortPermutes(rest, le);
      assert MapSeq(f, s)[1..] == MapSeq(f, rest);
      var sorted := Sort(rest, le);
      forall y | y in sorted ensures le(s[0], y) <==> leU(f(s[0]), f(y)) {
        assert y in rest;
        assert y in s;
      }
      InsertCommutes(s[0], sorted, f, le, leU);
    }
  }

  lemma {:induction false} InsertCommutes<T(!new), U>(x: T, s: seq<T>, f: T -> U, le: (T, T) -> bool,
        leU: (U, U) -> bool)
    requires forall y :: y in s ==> (le(x, y) <==> leU(f(x), f(y)))
    ensures Insert(f(x), MapSeq(f, s), leU) == MapSeq(f, Insert(x, s, le))
  {
    if s == [] {
    } else if le(x, s[0]) {
      assert MapSeq(f, [x] + s) == [f(x)] + MapSeq(f, s);
    } else {
      InsertCommutes(x, s[1..], f, le, leU);
      assert MapSeq(f, s)[1..] == MapSeq(f, s[1..]);
      assert MapSeq(f, [s[0]] + Insert(x, s[1..], le)) == [f(s[0])] + MapSeq(f, Insert(x, s[1..], le));
    }
  }

  // ----- Facts about permutations -----

  lemma {:induction false} WithoutAt<T>(t: seq<T>, i: nat)
    requires i < |t|
    ensures t == t[..i] + ([t[i]] + t[i + 1..])
    ensures multiset(t[..i] + t[i + 1..]) == multiset(t) - multiset{t[i]}
  {
    var first, rest := t[..i], t[i + 1..];
    assert t == first + ([t[i]] + rest);
    assert multiset(t) == multiset(first) + (multiset{t[i]} + multiset(rest));
    assert multiset(first + rest) == multiset(first) + multiset(rest);
  }

  /** Where the first element of s sits in a permutation t, and what is left of t without it. */
  lemma {:induction false} TakeOut<T(!new)>(s: seq<T>, t: seq<T>) returns (i: nat, rest: seq<T>)
    requires s != [] && multiset(s) == multiset(t)
    ensures i < |t| && t[i] == s[0] && rest == t[..i] + t[i + 1..]
    ensures t == t[..i] + ([s[0]] + t[i + 1..])
    ensures multiset(s[1..]) == multiset(rest) && |rest| == |s[1..]|
  {
    MultisetFacts(s, t);
    assert s[0] in t;
    i :| 0 <= i < |t| && t[i] == s[0];
    rest := t[..i] + t[i + 1..];
    WithoutAt(s, 0);
    WithoutAt(t, i);
    assert s[..0] + s[1..] == s[1..];
  }

  lemma {:induction false} CountForgetsOrder<T(!new)>(f: T -> bool, s: seq<T>, t: seq<T>)
    requires multiset(s) == multiset(t)
    ensures Count(f, s) == Count(f, t)
  {
    if s == [] {
      assert |multiset(t)| == 0;
    } else {
      var i, rest := TakeOut(s, t);
      CountForgetsOrder(f, s[1..], rest);
      CountAppend(f, t[..i], [s[0]] + t[i + 1..]);
      CountAppend(f, t[..i], t[i + 1..]);
      assert ([s[0]] + t[i + 1..])[1..] == t[i + 1..];
    }
  }

  lemma {:induction false} MapAppend<T, U>(f: T -> U, s: seq<T>, t: seq<T>)
    ensures MapSeq(f, s + t) == MapSeq(f, s) + MapSeq(f, t)
  {
  }

  lemma {:induction false} MapForgetsOrder<T(!new), U>(f: T -> U, s: seq<T>, t: seq<T>)
    requires multiset(s) == multiset(t)
    ensures multiset(MapSeq(f, s)) == multiset(MapSeq(f, t))
  {
    if s == [] {
      assert |multiset(t)| == 0;
    } else {
      var i, rest := TakeOut(s, t);
      MapForgetsOrder(f, s[1..], rest);
      assert s == [s[0]] + s[1..];
      MapAppend(f, [s[0]], s[1..]);
      MapAppend(f, t[..i], [s[0]] + t[i + 1..]);
      MapAppend(f, [s[0]], t[i + 1..]);
      MapAppend(f, t[..i], t[i + 1..]);
    }
  }

  /** The sum of f over s. */
  function Total<T>(f: T -> nat, s: seq<T>): nat {
    if s == [] then 0 else Total(f, s[..|s| - 1]) + f(s[|s| - 1])
  }

  lemma {:induction false} TotalSnoc<T>(f: T -> nat, s: seq<T>, x: T)
    ensures Total(f, s + [x]) == Total(f, s) + f(x)
  {
    assert (s + [x])[..|s|] == s;
  }

  lemma {:induction false} TotalAppend<T>(f: T -> nat, s: seq<T>, t: seq<T>)
    ensures Total(f, s + t) == Total(f, s) + Total(f, t)
    decreases |t|
  {
    if t == [] {
      assert s + t == s;
    } else {
      assert (s + t)[..|s + t| - 1] == s + t[..|t| - 1];
      TotalAppend(f, s, t[..|t| - 1]);
    }
  }

  lemma {:induction false} TotalForgetsOrder<T(!new)>(f: T -> nat, s: seq<T>, t: seq<T>)
    requires multiset(s) == multiset(t)
    ensures Total(f, s) == Total(f, t)
  {
    if s == [] {
      assert |multiset(t)| == 0;
    } else {
      var i, rest := TakeOut(s, t);
      TotalForgetsOrder(f, s[1..], rest);
      assert s == [s[0]] + s[1..];
      TotalAppend(f, [s[0]], s[1..]);
      TotalAppend(f, t[..i], [s[0]] + t[i + 1..]);
      TotalAppend(f, [s[0]], t[i + 1..]);
      TotalAppend(f, t[..i], t[i + 1..]);
    }
  }

  function Not<T>(f: T -> bool): T -> bool { x => !f(x) }

  lemma {:induction false} Unsnoc<T>(s: seq<T>) returns (before: seq<T>, last: T)
    requires s != []
    ensures s == before + [last] && |before| == |s| - 1
  {
    before, last := s[..|s| - 1], s[|s| - 1];
  }

  lemma {:induction false} SplitSnoc<T>(a: seq<T>, b: seq<T>, s: seq<T>, x: T, first: bool)
    requires multiset(a + b) == multiset(s)
    ensures multiset((a + if first then [x] else []) + (b + if !first then [x] else [])) == multiset(s + [x])
  {
  }

  lemma {:induction false} KeepSplitsSnoc<T>(f: T -> bool, before: seq<T>, last: T)
    requires multiset(Keep(f, before) + Keep(Not(f), before)) == multiset(before)
    ensures multiset(Keep(f, before + [last]) + Keep(Not(f), before + [last])) == multiset(before + [last])
  {
    KeepSnoc(f, before, last);
    KeepSnoc(Not(f), before, last);
    SplitSnoc(Keep(f, before), Keep(Not(f), before), before, last, f(last));
  }

  /** A filter and its complement rearrange the sequence. */
  lemma {:induction false} KeepSplits<T>(f: T -> bool, s: seq<T>)
    ensures multiset(Keep(f, s) + Keep(Not(f), s)) == multiset(s)
    decreases |s|
  {
    if s != [] {
      var before, last := Unsnoc(s);
      KeepSplits(f, before);
      KeepSplitsSnoc(f, before, last);
    }
  }

  lemma {:induction false} KeepSize<T>(f: T -> bool, s: seq<T>)
    ensures |Keep(f, s)| == Count(f, s)
  {
    if s != [] {
      var before, last := s[..|s| - 1], s[|s| - 1];
      assert s == before + [last];
      KeepSize(f, before);
      CountAppend(f, before, [last]);
      assert [last][1..] == [];
    }
  }

  lemma {:induction false} KeepForgetsOrder<T(!new)>(f: T -> bool, s: seq<T>, t: seq<T>)
    requires multiset(s) == multiset(t)
    ensures multiset(Keep(f, s)) == multiset(Keep(f, t))
  {
    if s == [] {
      assert |multiset(t)| == 0;
    } else {
      var i, rest := TakeOut(s, t);
      KeepForgetsOrder(f, s[1..], rest);
      assert s == [s[0]] + s[1..];
      KeepAppend(f, [s[0]], s[1..]);
      KeepAppend(f, t[..i], [s[0]] + t[i + 1..]);
      KeepAppend(f, [s[0]], t[i + 1..]);
      KeepAppend(f, t[..i], t[i + 1..]);
    }
  }

  lemma {:induction false} KeepAppend<T>(f: T -> bool, s: seq<T>, t: seq<T>)
    ensures Keep(f, s + t) == Keep(f, s) + Keep(f, t)
    decreases |t|
  {
    if t == [] {
      assert s + t == s;
    } else {
      var before := t[..|t| - 1];
      assert (s + t)[..|s + t| - 1] == s + before;
      KeepAppend(f, s, before);
    }
  }

  lemma {:induction false} PermutationKeepsDistinct<T(!new), U(!new)>(f: T -> U, s: seq<T>, t: seq<T>)
    requires multiset(s) == multiset(t)
    ensures Distinct(MapSeq(f, s)) <==> Distinct(MapSeq(f, t))
  {
    MultisetFacts(s, t);
    ElementsSize(MapSeq(f, s));
    ElementsSize(MapSeq(f, t));
    MappedElements(f, s, t);
    MappedElements(f, t, s);
    assert Elements(MapSeq(f, s)) == Elements(MapSeq(f, t));
  }

  lemma {:induction false} MappedElements<T(!new), U(!new)>(f: T -> U, s: seq<T>, t: seq<T>)
    requires forall x :: x in s ==> x in t
    ensures Elements(MapSeq(f, s)) <= Elements(MapSeq(f, t))
  {
    forall y | y in Elements(MapSeq(f, s)) ensures y in Elements(MapSeq(f, t)) {
      var i :| 0 <= i < |s| && MapSeq(f, s)[i] == y;
      assert s[i] in t;
      var j :| 0 <= j < |t| && t[j] == s[i];
      assert MapSeq(f, t)[j] == y;
    }
  }

  /** Python's order on strings: lexicographic by code point. */
  predicate StringLe(a: string, b: string) {
    if a == [] then true
    else if b == [] then false
    else if a[0] != b[0] then a[0] < b[0]
    else StringLe(a[1..], b[1..])
  }

  lemma {:induction false} StringLeTotal(a: string, b: string)
    ensures StringLe(a, b) || StringLe(b, a)
    ensures StringLe(a, b) && StringLe(b, a) ==> a == b
  {
    if a != [] && b != [] && a[0] == b[0] {
      StringLeTotal(a[1..], b[1..]);
      assert a == [a[0]] + a[1..] && b == [b[0]] + b[1..];
    }
  }

  lemma {:induction false} StringLeTransitive(a: string, b: string, c: string)
    requires StringLe(a, b) && StringLe(b, c)
    ensures StringLe(a, c)
  {
    if a != [] && a[0] == b[0] == c[0] {
      StringLeTransitive(a[1..], b[1..], c[1..]);
    }
  }

  /** The strings agree before k and a is smaller at k. */
  predicate SmallerAt(a: string, b: string, k: nat) {
    k < |a| && k < |b| && a[..k] == b[..k] && a[k] < b[k]
  }

  lemma {:induction false} SmallerTails(a: string, b: string, k: nat)
    requires a != [] && b != [] && a[0] == b[0]
    ensures SmallerAt(a[1..], b[1..], k) <==> SmallerAt(a, b, k + 1)
  {
    if k < |a| - 1 && k < |b| - 1 {
      assert a[..k + 1] == [a[0]] + a[1..][..k] && b[..k + 1] == [b[0]] + b[1..][..k];
      assert a[1..][..k] == a[..k + 1][1..] && b[1..][..k] == b[..k + 1][1..];
    }
  }

  /** The first difference decides, and a prefix comes first. */
  lemma {:induction false} StringLeExactly(a: string, b: string)
    ensures StringLe(a, b) <==> a <= b || exists k: nat :: SmallerAt(a, b, k)
  {
    if a != [] && b != [] {
      if a[0] == b[0] {
        StringLeExactly(a[1..], b[1..]);
        assert a[1..] <= b[1..] <==> a <= b by {
          assert a == [a[0]] + a[1..] && b == [b[0]] + b[1..];
        }
        if k: nat :| SmallerAt(a[1..], b[1..], k) { SmallerTails(a, b, k); }
        if k: nat :| SmallerAt(a, b, k) { SmallerTails(a, b, k - 1); }
      } else {
        assert SmallerAt(a, b, 0) <==> a[0] < b[0];
        if k: nat :| SmallerAt(a, b, k) {
          if k > 0 { assert a[..k][0] == b[..k][0]; }
        }
      }
    }
  }

  lemma {:induction false} StringLeIsOrder()
    ensures TotalPreorder(StringLe)
    ensures forall a, b :: StringLe(a, b) && StringLe(b, a) ==> a == b
  {
    forall a, b ensures StringLe(a, b) || StringLe(b, a)
      ensures StringLe(a, b) && StringLe(b, a) ==> a == b {
      StringLeTotal(a, b);
    }
    forall a, b, c | StringLe(a, b) && StringLe(b, c) ensures StringLe(a, c) {
      StringLeTransitive(a, b, c);
    }
  }
}
