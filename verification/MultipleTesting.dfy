/**
 Holm and Benjamini-Hochberg adjustments. The program runs a maximum or a minimum down a
 sorted list; the reference definitions below never mention a sort, so ties and input
 order cannot matter to them.
 */
module MultipleTesting {
  import opened Prelude
  import opened Sorting

  datatype CorrectionError = NoPValues | AlphaOutOfRange | PValueOutOfRange

  datatype CorrectionResult = CorrectionResult(adjusted: seq<real>, reject: seq<bool>)

  predicate InUnit(p: seq<real>) {
    forall k :: 0 <= k < |p| ==> 0.0 <= p[k] <= 1.0
  }

  function AtLeast(v: real): real -> bool { x => x >= v }

  function AtMost(v: real): real -> bool { x => x <= v }

  /** How many p-values are at least, or at most, v. */
  function CountGe(p: seq<real>, v: real): nat { Count(AtLeast(v), p) }

  function CountLe(p: seq<real>, v: real): nat { Count(AtMost(v), p) }

  // ----- Reference definitions -----

  function HolmValue(x: real, n: int): real { MinReal(1.0, x * n as real) }

  function BhValue(x: real, m: int, n: int): real
    requires n > 0
  {
    x * m as real / n as real
  }

  function HolmTerm(p: seq<real>, x: real): real { HolmValue(x, CountGe(p, x)) }

  /** The largest Holm term among the first n p-values that do not exceed v. */
  function HolmMax(p: seq<real>, v: real, n: nat): real
    requires n <= |p|
  {
    if n == 0 then 0.0
    else if p[n - 1] <= v then MaxReal(HolmMax(p, v, n - 1), HolmTerm(p, p[n - 1]))
    else HolmMax(p, v, n - 1)
  }

  /** Holm's adjusted value of a p-value v among p. */
  function HolmAt(p: seq<real>, v: real): real {
    HolmMax(p, v, |p|)
  }

  function BhTerm(p: seq<real>, x: real): real
    requires x in p
  {
    CountPositive(AtMost(x), p, x);
    BhValue(x, |p|, CountLe(p, x))
  }

  /** The smallest Benjamini-Hochberg term among the first n p-values that are at least v. */
  function BhMin(p: seq<real>, v: real, n: nat): real
    requires n <= |p|
  {
    if n == 0 then 1.0
    else if p[n - 1] >= v then MinReal(BhMin(p, v, n - 1), BhTerm(p, p[n - 1]))
    else BhMin(p, v, n - 1)
  }

  /** The Benjamini-Hochberg adjusted value of a p-value v among p. */
  function BhAt(p: seq<real>, v: real): real {
    BhMin(p, v, |p|)
  }

  /** Two counts taken position by position. */
  lemma {:induction false} CountPointwise(f: real -> bool, s: seq<real>, g: real -> bool, t: seq<real>)
    requires |s| == |t| && forall k :: 0 <= k < |s| && f(s[k]) ==> g(t[k])
    ensures Count(f, s) <= Count(g, t)
  {
    if s != [] {
      CountPointwise(f, s[1..], g, t[1..]);
    }
  }

  lemma {:induction false} HolmMaxAtLeast(p: seq<real>, v: real, n: nat, j: nat)
    requires j < n <= |p| && p[j] <= v
    ensures HolmTerm(p, p[j]) <= HolmMax(p, v, n)
  {
    if j < n - 1 { HolmMaxAtLeast(p, v, n - 1, j); }
  }

  lemma {:induction false} HolmMaxAttained(p: seq<real>, v: real, n: nat) returns (j: int)
    requires n <= |p|
    ensures HolmMax(p, v, n) >= 0.0
    ensures j == -1 ==> HolmMax(p, v, n) == 0.0
    ensures j != -1 ==> 0 <= j < n && p[j] <= v && HolmMax(p, v, n) == HolmTerm(p, p[j])
  {
    if n == 0 {
      j := -1;
    } else {
      j := HolmMaxAttained(p, v, n - 1);
      if p[n - 1] <= v && HolmTerm(p, p[n - 1]) > HolmMax(p, v, n - 1) {
        j := n - 1;
      }
    }
  }

  lemma {:induction false} BhMinAtMost(p: seq<real>, v: real, n: nat, j: nat)
    requires j < n <= |p| && p[j] >= v
    ensures BhMin(p, v, n) <= BhTerm(p, p[j])
  {
    if j < n - 1 { BhMinAtMost(p, v, n - 1, j); }
  }

  lemma {:induction false} BhMinAttained(p: seq<real>, v: real, n: nat) returns (j: int)
    requires n <= |p|
    ensures BhMin(p, v, n) <= 1.0
    ensures j == -1 ==> BhMin(p, v, n) == 1.0
    ensures j != -1 ==> 0 <= j < n && p[j] >= v && BhMin(p, v, n) == BhTerm(p, p[j])
  {
    if n == 0 {
      j := -1;
    } else {
      j := BhMinAttained(p, v, n - 1);
      if p[n - 1] >= v && BhTerm(p, p[n - 1]) < BhMin(p, v, n - 1) {
        j := n - 1;
      }
    }
  }

  lemma {:induction false} MulMono(a: real, b: real, x: real, y: real)
    requires 0.0 <= a <= b && 0.0 <= x <= y
    ensures 0.0 <= a * x <= b * y
  {
    assert b * y - a * x == (b - a) * y + a * (y - x);
  }

  lemma {:induction false} DivMono(a: real, b: real, x: real, y: real)
    requires 0.0 <= a <= b && 0.0 < x <= y
    ensures 0.0 <= a / y <= b / x
  {
    var q, r := a / y, b / x;
    assert q * y == a && r * x == b;
    if q < 0.0 {
      NegativeProduct(q, y);
      assert false;
    }
    if r < q {
      assert q * y - r * x == (q - r) * y + r * (y - x);
      if r < 0.0 {
        NegativeProduct(r, x);
        assert false;
      }
      MulMono(0.0, r, 0.0, y - x);
      NegativeProduct(r - q, y);
      assert false;
    }
  }

  lemma {:induction false} HolmValueMono(a: real, b: real, x: nat, y: nat)
    requires 0.0 <= a <= b && x <= y
    ensures 0.0 <= HolmValue(a, x) <= HolmValue(b, y)
  {
    MulMono(a, b, x as real, y as real);
  }

  lemma {:induction false} BhValueMono(a: real, b: real, m: nat, x: nat, y: nat)
    requires 0.0 <= a <= b && 0 < x <= y
    ensures 0.0 <= BhValue(a, m, y) <= BhValue(b, m, x)
  {
    MulMono(a, b, m as real, m as real);
    DivMono(a * m as real, b * m as real, x as real, y as real);
  }

  lemma {:induction false} NegativeProduct(q: real, y: real)
    requires q < 0.0 < y
    ensures q * y < 0.0
  {
  }

  // ----- The program's running values, by sorted position -----

  /** What position k contributes to `holm`, and to `benjamini_hochberg`. */
  function HolmStep(sorted: seq<real>, k: nat): real
    requires k < |sorted|
  {
    HolmValue(sorted[k], |sorted| - k)
  }

  function BhStep(sorted: seq<real>, k: nat): real
    requires k < |sorted|
  {
    BhValue(sorted[k], |sorted|, k + 1)
  }

  /** The running maximum of `holm` after the first n positions of the sorted list. */
  function RunningMax(sorted: seq<real>, n: nat): real
    requires n <= |sorted|
  {
    if n == 0 then 0.0 else MaxReal(RunningMax(sorted, n - 1), HolmStep(sorted, n - 1))
  }

  /** The running minimum of `benjamini_hochberg` down to position k of the sorted list. */
  function RunningMin(sorted: seq<real>, k: nat): real
    requires k <= |sorted|
    decreases |sorted| - k
  {
    if k == |sorted| then 1.0 else MinReal(RunningMin(sorted, k + 1), BhStep(sorted, k))
  }

  predicate Ascending(s: seq<real>) {
    forall i, j :: 0 <= i < j < |s| ==> s[i] <= s[j]
  }

  /** In an ascending list, the values at least s[a] are exactly the suffix that starts at the first of them. */
  lemma {:induction false} SuffixCount(s: seq<real>, a: nat)
    requires Ascending(s) && a < |s|
    ensures CountGe(s, s[a]) >= |s| - a
    ensures a == 0 || s[a - 1] < s[a] ==> CountGe(s, s[a]) == |s| - a
  {
    assert s == s[..a] + s[a..];
    CountAppend(AtLeast(s[a]), s[..a], s[a..]);
    CountFull(AtLeast(s[a]), s[a..]);
    if a == 0 || s[a - 1] < s[a] {
      forall k | 0 <= k < |s[..a]| ensures !AtLeast(s[a])(s[..a][k]) {
        assert s[k] <= s[a - 1];
      }
      CountEmpty(AtLeast(s[a]), s[..a]);
    }
  }

  /** In an ascending list, the values at most s[b] are exactly the prefix that ends at the last of them. */
  lemma {:induction false} PrefixCount(s: seq<real>, b: nat)
    requires Ascending(s) && b < |s|
    ensures CountLe(s, s[b]) >= b + 1
    ensures b == |s| - 1 || s[b] < s[b + 1] ==> CountLe(s, s[b]) == b + 1
  {
    assert s == s[..b + 1] + s[b + 1..];
    CountAppend(AtMost(s[b]), s[..b + 1], s[b + 1..]);
    CountFull(AtMost(s[b]), s[..b + 1]);
    if b == |s| - 1 || s[b] < s[b + 1] {
      var rest := s[b + 1..];
      forall k | 0 <= k < |rest| ensures !AtMost(s[b])(rest[k]) {
        assert rest[k] == s[b + 1 + k] && s[b + 1] <= s[b + 1 + k];
      }
      CountEmpty(AtMost(s[b]), rest);
    }
  }

  lemma {:induction false} FirstOf(s: seq<real>, k: nat) returns (a: nat)
    requires Ascending(s) && k < |s|
    ensures a <= k && s[a] == s[k] && (a == 0 || s[a - 1] < s[a])
  {
    if k == 0 || s[k - 1] < s[k] {
      a := k;
    } else {
      a := FirstOf(s, k - 1);
    }
  }

  lemma {:induction false} LastOf(s: seq<real>, k: nat) returns (b: nat)
    requires Ascending(s) && k < |s|
    ensures k <= b < |s| && s[b] == s[k] && (b == |s| - 1 || s[b] < s[b + 1])
    decreases |s| - k
  {
    if k == |s| - 1 || s[k] < s[k + 1] {
      b := k;
    } else {
      b := LastOf(s, k + 1);
    }
  }

  lemma {:induction false} RunningMaxAtLeast(sorted: seq<real>, n: nat, q: nat)
    requires q < n <= |sorted|
    ensures HolmStep(sorted, q) <= RunningMax(sorted, n)
  {
    if q < n - 1 { RunningMaxAtLeast(sorted, n - 1, q); }
  }

  lemma {:induction false} RunningMaxAttained(sorted: seq<real>, n: nat) returns (q: int)
    requires n <= |sorted|
    ensures RunningMax(sorted, n) >= 0.0
    ensures q == -1 ==> RunningMax(sorted, n) == 0.0
    ensures q != -1 ==> 0 <= q < n && RunningMax(sorted, n) == HolmStep(sorted, q)
  {
    if n == 0 {
      q := -1;
    } else {
      q := RunningMaxAttained(sorted, n - 1);
      if HolmStep(sorted, n - 1) > RunningMax(sorted, n - 1) {
        q := n - 1;
      }
    }
  }

  lemma {:induction false} RunningMinAtMost(sorted: seq<real>, k: nat, q: nat)
    requires k <= q < |sorted|
    ensures RunningMin(sorted, k) <= BhStep(sorted, q)
    decreases |sorted| - k
  {
    if k < q { RunningMinAtMost(sorted, k + 1, q); }
  }

  lemma {:induction false} RunningMinAttained(sorted: seq<real>, k: nat) returns (q: int)
    requires k <= |sorted|
    ensures RunningMin(sorted, k) <= 1.0
    ensures q == -1 ==> RunningMin(sorted, k) == 1.0
    ensures q != -1 ==> k <= q < |sorted| && RunningMin(sorted, k) == BhStep(sorted, q)
    decreases |sorted| - k
  {
    if k == |sorted| {
      q := -1;
    } else {
      q := RunningMinAttained(sorted, k + 1);
      if BhStep(sorted, k) < RunningMin(sorted, k + 1) {
        q := k;
      }
    }
  }

  /** sorted lists the p-values in ascending order. */
  ghost predicate SortedBy(p: seq<real>, sorted: seq<real>) {
    multiset(p) == multiset(sorted) && Ascending(sorted) && InUnit(sorted)
  }

  /** A step of `holm` is at most the reference term of its value, and equal at the first of its ties. */
  lemma {:induction false} HolmStepIsTerm(p: seq<real>, sorted: seq<real>, k: nat)
    requires SortedBy(p, sorted) && k < |sorted|
    ensures 0.0 <= HolmStep(sorted, k) <= HolmTerm(p, sorted[k])
    ensures k == 0 || sorted[k - 1] < sorted[k] ==> HolmStep(sorted, k) == HolmTerm(p, sorted[k])
  {
    CountForgetsOrder(AtLeast(sorted[k]), p, sorted);
    SuffixCount(sorted, k);
    HolmValueMono(sorted[k], sorted[k], |sorted| - k, CountGe(p, sorted[k]));
  }

  lemma {:induction false} BhStepIsTerm(p: seq<real>, sorted: seq<real>, k: nat)
    requires SortedBy(p, sorted) && k < |sorted| && sorted[k] in p
    ensures BhTerm(p, sorted[k]) <= BhStep(sorted, k)
    ensures k == |sorted| - 1 || sorted[k] < sorted[k + 1] ==> BhStep(sorted, k) == BhTerm(p, sorted[k])
  {
    MultisetFacts(p, sorted);
    CountForgetsOrder(AtMost(sorted[k]), p, sorted);
    PrefixCount(sorted, k);
    BhValueMono(sorted[k], sorted[k], |p|, k + 1, CountLe(p, sorted[k]));
  }

  /** `holm` by sorted position is Holm's adjustment by value. */
  lemma {:induction false} RunningMaxIsHolm(p: seq<real>, sorted: seq<real>, k: nat)
    requires SortedBy(p, sorted) && k < |sorted|
    ensures RunningMax(sorted, k + 1) == HolmAt(p, sorted[k])
  {
    MultisetFacts(p, sorted);
    var q := RunningMaxAttained(sorted, k + 1);
    var j := HolmMaxAttained(p, sorted[k], |p|);
    if q != -1 {
      HolmStepIsTerm(p, sorted, q);
      assert sorted[q] in p;
      var i :| 0 <= i < |p| && p[i] == sorted[q];
      HolmMaxAtLeast(p, sorted[k], |p|, i);
    }
    if j != -1 {
      assert p[j] in sorted;
      var t :| 0 <= t < |sorted| && sorted[t] == p[j];
      var a := FirstOf(sorted, t);
      HolmStepIsTerm(p, sorted, a);
      RunningMaxAtLeast(sorted, k + 1, a);
    }
  }

  /** `benjamini_hochberg` by sorted position is the adjustment by value. */
  lemma {:induction false} RunningMinIsBh(p: seq<real>, sorted: seq<real>, k: nat)
    requires SortedBy(p, sorted) && k < |sorted|
    ensures RunningMin(sorted, k) == BhAt(p, sorted[k])
  {
    MultisetFacts(p, sorted);
    var q := RunningMinAttained(sorted, k);
    var j := BhMinAttained(p, sorted[k], |p|);
    if q != -1 {
      assert sorted[q] in p;
      BhStepIsTerm(p, sorted, q);
      var i :| 0 <= i < |p| && p[i] == sorted[q];
      BhMinAtMost(p, sorted[k], |p|, i);
    }
    if j != -1 {
      assert p[j] in sorted;
      var t :| 0 <= t < |sorted| && sorted[t] == p[j];
      var b := LastOf(sorted, t);
      BhStepIsTerm(p, sorted, b);
      RunningMinAtMost(sorted, k, b);
    }
  }

  // ----- The program -----

  /** One item of `enumerate(p_values)`. */
  datatype Indexed = Indexed(index: nat, value: real)

  predicate PairLe(a: Indexed, b: Indexed) { a.value <= b.value }

  function Enumerate(p: seq<real>): seq<Indexed> {
    seq(|p|, k requires 0 <= k < |p| => Indexed(k, p[k]))
  }

  function ValueOf(item: Indexed): real { item.value }

  function IndexOf(item: Indexed): nat { item.index }

  /** indexed lists every index of p once, with its value, values ascending. */
  ghost predicate Indexes(p: seq<real>, indexed: seq<Indexed>) {
    && |indexed| == |p|
    && (forall k :: 0 <= k < |p| ==> indexed[k].index < |p| && p[indexed[k].index] == indexed[k].value)
    && Distinct(MapSeq(IndexOf, indexed))
    && (forall i :: 0 <= i < |p| ==> i in MapSeq(IndexOf, indexed))
    && (forall k :: 0 <= k < |p| ==> indexed[k] == Indexed(MapSeq(IndexOf, indexed)[k], MapSeq(ValueOf, indexed)[k]))
    && Ascending(MapSeq(ValueOf, indexed)) && multiset(MapSeq(ValueOf, indexed)) == multiset(p)
  }

  /** `sorted(enumerate(p), key=value)`. */
  lemma {:induction false} SortedPairs(p: seq<real>)
    ensures Indexes(p, Sort(Enumerate(p), PairLe))
  {
    SortPermutes(Enumerate(p), PairLe);
    SortOrdered(Enumerate(p), PairLe);
    OrderedIndexes(p, Sort(Enumerate(p), PairLe));
  }

  lemma {:induction false} OrderedIndexes(p: seq<real>, indexed: seq<Indexed>)
    requires multiset(indexed) == multiset(Enumerate(p)) && Ordered(indexed, PairLe)
    ensures Indexes(p, indexed)
  {
    var pairs := Enumerate(p);
    MultisetFacts(indexed, pairs);
    PermutationKeepsDistinct(IndexOf, indexed, pairs);
    MapForgetsOrder(ValueOf, pairs, indexed);
    assert MapSeq(ValueOf, pairs) == p;
    assert Distinct(MapSeq(IndexOf, pairs)) by {
      assert forall k :: 0 <= k < |p| ==> MapSeq(IndexOf, pairs)[k] == k;
    }
    PairMembers(p, indexed);
    OrderedPairsAscend(indexed);
  }

  lemma {:induction false} OrderedPairsAscend(indexed: seq<Indexed>)
    requires Ordered(indexed, PairLe)
    ensures Ascending(MapSeq(ValueOf, indexed))
  {
    var values := MapSeq(ValueOf, indexed);
    forall i, j | 0 <= i < j < |indexed| ensures values[i] <= values[j] {
      assert PairLe(indexed[i], indexed[j]);
      assert values[i] == ValueOf(indexed[i]) && values[j] == ValueOf(indexed[j]);
    }
  }

  lemma {:induction false} PairMembers(p: seq<real>, indexed: seq<Indexed>)
    requires |indexed| == |p| && forall x :: x in indexed <==> x in Enumerate(p)
    ensures forall k :: 0 <= k < |p| ==> indexed[k].index < |p| && p[indexed[k].index] == indexed[k].value
    ensures forall i :: 0 <= i < |p| ==> i in MapSeq(IndexOf, indexed)
  {
    forall k | 0 <= k < |p| ensures indexed[k].index < |p| && p[indexed[k].index] == indexed[k].value {
      assert indexed[k] in Enumerate(p);
    }
    var ids, all := MapSeq(IndexOf, indexed), Enumerate(p);
    forall i | 0 <= i < |p| ensures i in ids {
      assert all[i] in all && all[i] in indexed && all[i].index == i;
      var k :| 0 <= k < |indexed| && indexed[k] == all[i];
      assert ids[k] == IndexOf(indexed[k]);
    }
  }

  function Validate(p: seq<real>, alpha: real): Option<CorrectionError> {
    if p == [] then Some(NoPValues)
    else if !(0.0 < alpha < 1.0) then Some(AlphaOutOfRange)
    else if !InUnit(p) then Some(PValueOutOfRange)
    else None
  }

  /** `holm`: every adjusted value is the reference value of its own p-value, whatever the tie order. */
  method Holm(p: seq<real>, alpha: real) returns (result: Result<CorrectionResult, CorrectionError>)
    ensures result.Ok? <==> p != [] && 0.0 < alpha < 1.0 && forall k :: 0 <= k < |p| ==> 0.0 <= p[k] <= 1.0
    ensures result.Err? ==> result.error == if p == [] then NoPValues
            else if !(0.0 < alpha < 1.0) then AlphaOutOfRange else PValueOutOfRange
    ensures result.Ok? ==> |result.value.adjusted| == |result.value.reject| == |p|
    ensures result.Ok? ==> forall i :: 0 <= i < |p| ==> result.value.adjusted[i] == HolmAt(p, p[i])
    ensures result.Ok? ==> forall i :: 0 <= i < |p| ==> (result.value.reject[i] <==> HolmAt(p, p[i]) <= alpha)
  {
    var invalid := Validate(p, alpha);
    if invalid.Some? {
      return Err(invalid.value);
    }
    var indexed := Sort(Enumerate(p), PairLe);
    SortedPairs(p);
    ghost var ids, sorted := MapSeq(IndexOf, indexed), MapSeq(ValueOf, indexed);
    var adjusted := RunDown(indexed, ids, sorted);
    HolmByPosition(p, indexed, ids, sorted, adjusted);
    return Ok(CorrectionResult(adjusted, MapSeq(AtMost(alpha), adjusted)));
  }

  method HolmNext(running: real, value: real, total: nat, position: nat, ghost sorted: seq<real>) returns (next: real)
    requires total == |sorted| && position < total && value == sorted[position]
    requires running == RunningMax(sorted, position)
    ensures next == RunningMax(sorted, position + 1)
  {
    next := MaxReal(running, HolmValue(value, total - position));
  }

  method BhNext(running: real, value: real, total: nat, position: nat, ghost sorted: seq<real>) returns (next: real)
    requires total == |sorted| && position < total && value == sorted[position]
    requires running == RunningMin(sorted, position + 1)
    ensures next == RunningMin(sorted, position)
  {
    next := MinReal(running, BhValue(value, total, position + 1));
  }

  /** `adjusted[original] = running`, where each original index is met once. */
  method Place(slots: array<real>, original: nat, value: real, ghost ids: seq<nat>, ghost levels: seq<real>,
      ghost position: nat, ghost lo: nat, ghost hi: nat)
    requires position < |ids| == |levels| == slots.Length && Distinct(ids) && forall k :: 0 <= k < |ids| ==>
            ids[k] < slots.Length
    requires ids[position] == original && levels[position] == value
    requires lo <= hi <= |ids| && !(lo <= position < hi) && forall q :: lo <= q < hi ==> slots[ids[q]] == levels[q]
    modifies slots
    ensures slots[ids[position]] == levels[position] && forall q :: lo <= q < hi ==> slots[ids[q]] == levels[q]
  {
    forall q | lo <= q < hi ensures ids[q] != original {
      assert ids[q] != ids[position];
    }
    slots[original] := value;
  }

  /** The loop of `holm` over the sorted pairs. */
  method RunDown(indexed: seq<Indexed>, ghost ids: seq<nat>, ghost sorted: seq<real>) returns (adjusted: seq<real>)
    requires |ids| == |sorted| == |indexed| && Distinct(ids)
    requires forall k :: 0 <= k < |indexed| ==> indexed[k] == Indexed(ids[k], sorted[k]) && ids[k] < |indexed|
    ensures |adjusted| == |ids|
    ensures forall q :: 0 <= q < |ids| ==> ids[q] < |ids| && adjusted[ids[q]] == RunningMax(sorted, q + 1)
  {
    var total := |indexed|;
    var slots := new real[total](_ => 0.0);
    var running := 0.0;
    ghost var levels := seq(total, q requires 0 <= q < total => RunningMax(sorted, q + 1));
    for position := 0 to total
      invariant running == RunningMax(sorted, position)
      invariant forall q :: 0 <= q < position ==> slots[ids[q]] == levels[q]
    {
      var Indexed(original, value) := indexed[position];
      running := HolmNext(running, value, total, position, sorted);
      Place(slots, original, running, ids, levels, position, 0, position);
    }
    adjusted := slots[..];
  }

  /** From positions of the sorted list back to the caller's indices. */
  lemma {:induction false} HolmByPosition(p: seq<real>, indexed: seq<Indexed>, ids: seq<nat>, sorted: seq<real>,
      adjusted: seq<real>)
    requires Indexes(p, indexed) && InUnit(p) && |adjusted| == |p|
    requires ids == MapSeq(IndexOf, indexed) && sorted == MapSeq(ValueOf, indexed)
    requires forall q :: 0 <= q < |ids| ==> ids[q] < |ids| && adjusted[ids[q]] == RunningMax(sorted, q + 1)
    ensures forall i :: 0 <= i < |p| ==> adjusted[i] == HolmAt(p, p[i])
  {
    SortedInUnit(p, sorted);
    forall i | 0 <= i < |p| ensures adjusted[i] == HolmAt(p, p[i]) {
      var q := PositionOf(p, indexed, i);
      RunningMaxIsHolm(p, sorted, q);
    }
  }

  lemma {:induction false} BhByPosition(p: seq<real>, indexed: seq<Indexed>, ids: seq<nat>, sorted: seq<real>,
      adjusted: seq<real>)
    requires Indexes(p, indexed) && InUnit(p) && |adjusted| == |p|
    requires ids == MapSeq(IndexOf, indexed) && sorted == MapSeq(ValueOf, indexed)
    requires forall q :: 0 <= q < |ids| ==> ids[q] < |ids| && adjusted[ids[q]] == RunningMin(sorted, q)
    ensures forall i :: 0 <= i < |p| ==> adjusted[i] == BhAt(p, p[i])
  {
    SortedInUnit(p, sorted);
    forall i | 0 <= i < |p| ensures adjusted[i] == BhAt(p, p[i]) {
      var q := PositionOf(p, indexed, i);
      RunningMinIsBh(p, sorted, q);
    }
  }

  lemma {:induction false} PositionOf(p: seq<real>, indexed: seq<Indexed>, i: nat) returns (q: nat)
    requires Indexes(p, indexed) && i < |p|
    ensures q < |p| && MapSeq(IndexOf, indexed)[q] == i && MapSeq(ValueOf, indexed)[q] == p[i]
  {
    assert i in MapSeq(IndexOf, indexed);
    q :| 0 <= q < |p| && MapSeq(IndexOf, indexed)[q] == i;
    assert indexed[q].index == i;
  }

  lemma {:induction false} SortedInUnit(p: seq<real>, sorted: seq<real>)
    requires multiset(p) == multiset(sorted) && InUnit(p)
    ensures InUnit(sorted)
  {
    MultisetFacts(p, sorted);
    forall k | 0 <= k < |sorted| ensures 0.0 <= sorted[k] <= 1.0 {
      assert sorted[k] in p;
    }
  }

  /** `benjamini_hochberg`. */
  method BenjaminiHochberg(p: seq<real>, alpha: real) returns (result: Result<CorrectionResult, CorrectionError>)
    ensures result.Ok? <==> p != [] && 0.0 < alpha < 1.0 && forall k :: 0 <= k < |p| ==> 0.0 <= p[k] <= 1.0
    ensures result.Err? ==> result.error == if p == [] then NoPValues
            else if !(0.0 < alpha < 1.0) then AlphaOutOfRange else PValueOutOfRange
    ensures result.Ok? ==> |result.value.adjusted| == |result.value.reject| == |p|
    ensures result.Ok? ==> forall i :: 0 <= i < |p| ==> result.value.adjusted[i] == BhAt(p, p[i])
    ensures result.Ok? ==> forall i :: 0 <= i < |p| ==> (result.value.reject[i] <==> BhAt(p, p[i]) <= alpha)
  {
    var invalid := Validate(p, alpha);
    if invalid.Some? {
      return Err(invalid.value);
    }
    var indexed := Sort(Enumerate(p), PairLe);
    SortedPairs(p);
    ghost var ids, sorted := MapSeq(IndexOf, indexed), MapSeq(ValueOf, indexed);
    var adjusted := RunUp(indexed, ids, sorted);
    BhByPosition(p, indexed, ids, sorted, adjusted);
    return Ok(CorrectionResult(adjusted, MapSeq(AtMost(alpha), adjusted)));
  }

  /** The loop of `benjamini_hochberg` over the sorted pairs, from the largest. */
  method RunUp(indexed: seq<Indexed>, ghost ids: seq<nat>, ghost sorted: seq<real>) returns (adjusted: seq<real>)
    requires |ids| == |sorted| == |indexed| && Distinct(ids)
    requires forall k :: 0 <= k < |indexed| ==> indexed[k] == Indexed(ids[k], sorted[k]) && ids[k] < |indexed|
    ensures |adjusted| == |ids|
    ensures forall q :: 0 <= q < |ids| ==> ids[q] < |ids| && adjusted[ids[q]] == RunningMin(sorted, q)
  {
    var total := |indexed|;
    var slots := new real[total](_ => 0.0);
    var running := 1.0;
    ghost var levels := seq(total, q requires 0 <= q < total => RunningMin(sorted, q));
    for position := total downto 0
      invariant running == RunningMin(sorted, position)
      invariant forall q :: position <= q < total ==> slots[ids[q]] == levels[q]
    {
      var Indexed(original, value) := indexed[position];
      running := BhNext(running, value, total, position, sorted);
      Place(slots, original, running, ids, levels, position, position + 1, total);
    }
    adjusted := slots[..];
  }
}
