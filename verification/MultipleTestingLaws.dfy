/** What the two corrections promise: order, monotonicity, the sequential procedures and closed testing. */
module MultipleTestingLaws {
  import opened Prelude
  import opened Sorting
  import opened MultipleTesting

  // ----- Order and ties -----

  lemma {:induction false} HolmForgetsOrderBelow(p: seq<real>, q: seq<real>, v: real)
    requires multiset(p) == multiset(q)
    ensures HolmAt(p, v) <= HolmAt(q, v)
  {
    MultisetFacts(p, q);
    var j := HolmMaxAttained(p, v, |p|);
    var _ := HolmMaxAttained(q, v, |q|);
    if j != -1 {
      assert p[j] in q;
      var i :| 0 <= i < |q| && q[i] == p[j];
      CountForgetsOrder(AtLeast(p[j]), p, q);
      HolmMaxAtLeast(q, v, |q|, i);
    }
  }

  lemma {:induction false} BhForgetsOrderAbove(p: seq<real>, q: seq<real>, v: real)
    requires multiset(p) == multiset(q)
    ensures BhAt(p, v) >= BhAt(q, v)
  {
    MultisetFacts(p, q);
    var j := BhMinAttained(p, v, |p|);
    var _ := BhMinAttained(q, v, |q|);
    if j != -1 {
      assert p[j] in q;
      var i :| 0 <= i < |q| && q[i] == p[j];
      CountForgetsOrder(AtMost(p[j]), p, q);
      BhMinAtMost(q, v, |q|, i);
    }
  }

  /** Permuting the p-values permutes both adjustments; equal p-values get equal adjustments. */
  lemma {:induction false} AdjustmentsForgetOrder(p: seq<real>, q: seq<real>, i: nat, j: nat)
    requires multiset(p) == multiset(q) && i < |p| && j < |q| && p[i] == q[j]
    ensures HolmAt(p, p[i]) == HolmAt(q, q[j]) && BhAt(p, p[i]) == BhAt(q, q[j])
  {
    HolmForgetsOrderBelow(p, q, p[i]);
    HolmForgetsOrderBelow(q, p, p[i]);
    BhForgetsOrderAbove(p, q, p[i]);
    BhForgetsOrderAbove(q, p, p[i]);
  }

  /** A larger p-value never gets a smaller adjusted value. */
  lemma {:induction false} AdjustmentsMonotone(p: seq<real>, v: real, w: real)
    requires v <= w
    ensures HolmAt(p, v) <= HolmAt(p, w) && BhAt(p, v) <= BhAt(p, w)
  {
    var j := HolmMaxAttained(p, v, |p|);
    var _ := HolmMaxAttained(p, w, |p|);
    if j != -1 { HolmMaxAtLeast(p, w, |p|, j); }
    var k := BhMinAttained(p, w, |p|);
    var _ := BhMinAttained(p, v, |p|);
    if k != -1 { BhMinAtMost(p, v, |p|, k); }
  }

  // ----- Lowering p-values -----

  lemma {:induction false} LeastAmong(p: seq<real>, indices: set<nat>) returns (j: nat)
    requires indices != {} && forall k :: k in indices ==> k < |p|
    ensures j in indices && forall k :: k in indices ==> p[j] <= p[k]
  {
    j :| j in indices;
    var rest := indices - {j};
    if rest != {} {
      var other := LeastAmong(p, rest);
      if p[other] < p[j] {
        j := other;
      }
      forall k | k in indices ensures p[j] <= p[k] {
        if k !in rest { assert indices == rest + {k}; }
      }
    } else {
      assert indices == {j};
    }
  }

  lemma {:induction false} GreatestAmong(p: seq<real>, indices: set<nat>) returns (j: nat)
    requires indices != {} && forall k :: k in indices ==> k < |p|
    ensures j in indices && forall k :: k in indices ==> p[k] <= p[j]
  {
    j :| j in indices;
    var rest := indices - {j};
    if rest != {} {
      var other := GreatestAmong(p, rest);
      if p[other] > p[j] {
        j := other;
      }
      forall k | k in indices ensures p[k] <= p[j] {
        if k !in rest { assert indices == rest + {k}; }
      }
    } else {
      assert indices == {j};
    }
  }

  ghost predicate PointwiseAtMost(q: seq<real>, p: seq<real>) {
    |q| == |p| && forall k :: 0 <= k < |p| ==> q[k] <= p[k]
  }

  /** Lowering any p-values raises no Holm-adjusted value. */
  lemma {:induction false} LoweringNeverRaisesHolm(q: seq<real>, p: seq<real>, i: nat)
    requires PointwiseAtMost(q, p) && InUnit(q) && InUnit(p) && i < |p|
    ensures HolmAt(q, q[i]) <= HolmAt(p, p[i])
  {
    var j := HolmMaxAttained(q, q[i], |q|);
    var _ := HolmMaxAttained(p, p[i], |p|);
    if j != -1 {
      var above := set k: nat | k < |q| && q[k] >= q[j];
      assert i in above;
      var least := LeastAmong(p, above);
      CountPointwise(AtLeast(q[j]), q, AtLeast(p[least]), p);
      HolmValueMono(q[j], p[least], CountGe(q, q[j]), CountGe(p, p[least]));
      HolmMaxAtLeast(p, p[i], |p|, least);
    }
  }

  /** Lowering any p-values raises no Benjamini-Hochberg-adjusted value. */
  lemma {:induction false} LoweringNeverRaisesBh(q: seq<real>, p: seq<real>, i: nat)
    requires PointwiseAtMost(q, p) && InUnit(q) && InUnit(p) && i < |p|
    ensures BhAt(q, q[i]) <= BhAt(p, p[i])
  {
    var j := BhMinAttained(p, p[i], |p|);
    var _ := BhMinAttained(q, q[i], |q|);
    if j != -1 {
      var below := set k: nat | k < |p| && p[k] <= p[j];
      assert i in below;
      var greatest := GreatestAmong(q, below);
      CountPointwise(AtMost(p[j]), p, AtMost(q[greatest]), q);
      CountPositive(AtMost(p[j]), p, p[j]);
      CountPositive(AtMost(q[greatest]), q, q[greatest]);
      BhValueMono(q[greatest], p[j], |p|, CountLe(p, p[j]), CountLe(q, q[greatest]));
      BhMinAtMost(q, q[i], |q|, greatest);
    }
  }

  /** n times a p-value. */
  function Scaled(x: real, n: int): real { x * n as real }

  // ----- p <= BH <= Holm <= min(1, m p) -----

  lemma {:induction false} CountsCover(p: seq<real>, v: real)
    ensures CountGe(p, v) + CountLe(p, v) == |p| + Count((x: real) => x == v, p)
  {
    if p != [] { CountsCover(p[1..], v); }
  }

  lemma {:induction false} BhValueBounds(x: real, m: nat, n: nat, g: nat)
    requires 0.0 <= x && 1 <= n <= m && n + g >= m + 1 && g <= m
    ensures x <= BhValue(x, m, n) <= Scaled(x, g)
  {
    BhValueMono(x, x, m, n, m);
    assert x * m as real / m as real == x;
    ProductCovers(m, n, g);
    RealOfProduct(n, g);
    MulMono(x, x, m as real, (n * g) as real);
    assert x * (n as real * g as real) == (x * g as real) * n as real;
    QuotientAtMost(x * m as real, n as real, x * g as real);
  }

  lemma {:induction false} ProductCovers(m: nat, n: nat, g: nat)
    requires 1 <= n <= m && n + g >= m + 1
    ensures n * g >= m
  {
    assert n * g - m == n * (g - 1 - (m - n)) + (n - 1) * (m - n);
    NatProduct(n, g - 1 - (m - n));
    NatProduct(n - 1, m - n);
  }

  lemma {:induction false} RealOfProduct(n: nat, g: nat)
    ensures (n * g) as real == n as real * g as real
  {
    if n > 0 {
      RealOfProduct(n - 1, g);
      assert n * g == (n - 1) * g + g;
      assert n as real == (n - 1) as real + 1.0;
    }
  }

  lemma {:induction false} NatProduct(a: nat, b: nat)
    ensures a * b >= 0
  {
  }

  lemma {:induction false} QuotientAtMost(a: real, n: real, b: real)
    requires 0.0 < n && a <= b * n
    ensures a / n <= b
  {
    var q := a / n;
    assert q * n == a;
    if b < q {
      NegativeProduct(b - q, n);
      assert false;
    }
  }

  /** The two corrections are ordered, and lie between the raw p-value and Bonferroni. */
  lemma {:induction false} CorrectionsAreOrdered(p: seq<real>, i: nat)
    requires InUnit(p) && i < |p|
    ensures p[i] <= BhAt(p, p[i]) <= HolmAt(p, p[i]) <= MinReal(1.0, Scaled(p[i], |p|))
  {
    RawBelowBh(p, i);
    BhBelowHolm(p, i);
    HolmBelowBonferroni(p, i);
  }

  lemma {:induction false} RawBelowBh(p: seq<real>, i: nat)
    requires InUnit(p) && i < |p|
    ensures p[i] <= BhAt(p, p[i])
  {
    var j := BhMinAttained(p, p[i], |p|);
    if j != -1 {
      CountPositive(AtMost(p[j]), p, p[j]);
      CountExtremes(AtMost(p[j]), p);
      BhValueBounds(p[j], |p|, CountLe(p, p[j]), |p|);
    }
  }

  lemma {:induction false} BhBelowHolm(p: seq<real>, i: nat)
    requires InUnit(p) && i < |p|
    ensures BhAt(p, p[i]) <= HolmAt(p, p[i])
  {
    var x := p[i];
    var _ := BhMinAttained(p, x, |p|);
    BhMinAtMost(p, x, |p|, i);
    HolmMaxAtLeast(p, x, |p|, i);
    CountsCover(p, x);
    CountPositive((y: real) => y == x, p, x);
    CountPositive(AtMost(x), p, x);
    CountExtremes(AtMost(x), p);
    CountExtremes(AtLeast(x), p);
    BhValueBounds(x, |p|, CountLe(p, x), CountGe(p, x));
  }

  lemma {:induction false} HolmBelowBonferroni(p: seq<real>, i: nat)
    requires InUnit(p) && i < |p|
    ensures HolmAt(p, p[i]) <= MinReal(1.0, Scaled(p[i], |p|))
  {
    var j := HolmMaxAttained(p, p[i], |p|);
    MulMono(0.0, p[i], 0.0, |p| as real);
    if j != -1 {
      CountExtremes(AtLeast(p[j]), p);
      HolmValueMono(p[j], p[i], CountGe(p, p[j]), |p|);
    }
  }

  /** At any level, Holm rejects only what Benjamini-Hochberg rejects. */
  lemma {:induction false} HolmRejectionsAreBhRejections(p: seq<real>, alpha: real, i: nat)
    requires InUnit(p) && i < |p| && HolmAt(p, p[i]) <= alpha
    ensures BhAt(p, p[i]) <= alpha
  {
    CorrectionsAreOrdered(p, i);
  }

  // ----- The sequential procedures -----

  /** Holm's step-down procedure: how many of the smallest p-values are rejected before the first failure. */
  function StepDown(sorted: seq<real>, alpha: real, k: nat): nat
    requires k <= |sorted|
    decreases |sorted| - k
  {
    if k < |sorted| && Scaled(sorted[k], |sorted| - k) <= alpha then StepDown(sorted, alpha, k + 1) else k
  }

  /** The k-th smallest p-value passes the step-up test: p(k) * m <= alpha * k. */
  predicate Passes(sorted: seq<real>, alpha: real, k: nat)
    requires 1 <= k <= |sorted|
  {
    sorted[k - 1] * |sorted| as real <= alpha * k as real
  }

  /** Benjamini and Hochberg's step-up procedure: the last k that passes, or 0. */
  function StepUp(sorted: seq<real>, alpha: real, k: nat): nat
    requires k <= |sorted|
  {
    if k == 0 || Passes(sorted, alpha, k) then k else StepUp(sorted, alpha, k - 1)
  }

  lemma {:induction false} StepDownPasses(sorted: seq<real>, alpha: real, k: nat)
    requires k <= |sorted|
    ensures var c := StepDown(sorted, alpha, k);
            && k <= c <= |sorted|
            && (forall q :: k <= q < c ==> Scaled(sorted[q], |sorted| - q) <= alpha)
            && (c < |sorted| ==> Scaled(sorted[c], |sorted| - c) > alpha)
    decreases |sorted| - k
  {
    if k < |sorted| && Scaled(sorted[k], |sorted| - k) <= alpha { StepDownPasses(sorted, alpha, k + 1); }
  }

  lemma {:induction false} StepUpPasses(sorted: seq<real>, alpha: real, k: nat)
    requires k <= |sorted|
    ensures var c := StepUp(sorted, alpha, k);
            && c <= k && (c > 0 ==> Passes(sorted, alpha, c))
            && (forall q :: c < q <= k ==> !Passes(sorted, alpha, q))
  {
    if k > 0 && !Passes(sorted, alpha, k) { StepUpPasses(sorted, alpha, k - 1); }
  }

  /** A step of the program is at most alpha exactly when its rank passes the textbook test. */
  lemma {:induction false} StepPasses(sorted: seq<real>, alpha: real, k: nat)
    requires k < |sorted|
    ensures BhStep(sorted, k) <= alpha <==> Passes(sorted, alpha, k + 1)
  {
    QuotientBounds(sorted[k] * |sorted| as real, (k + 1) as real, alpha);
  }

  /** The adjusted Holm value decides exactly as the classical step-down procedure does. */
  lemma {:induction false} HolmIsStepDown(p: seq<real>, sorted: seq<real>, alpha: real, k: nat)
    requires SortedBy(p, sorted) && 0.0 < alpha < 1.0 && k < |sorted|
    ensures HolmAt(p, sorted[k]) <= alpha <==> k < StepDown(sorted, alpha, 0)
  {
    RunningMaxIsHolm(p, sorted, k);
    StepDownPasses(sorted, alpha, 0);
    var c := StepDown(sorted, alpha, 0);
    if k < c {
      var q := RunningMaxAttained(sorted, k + 1);
    } else {
      RunningMaxAtLeast(sorted, k + 1, c);
    }
  }

  /** The adjusted Benjamini-Hochberg value decides exactly as the step-up procedure does. */
  lemma {:induction false} BhIsStepUp(p: seq<real>, sorted: seq<real>, alpha: real, k: nat)
    requires SortedBy(p, sorted) && 0.0 < alpha < 1.0 && k < |sorted|
    ensures BhAt(p, sorted[k]) <= alpha <==> k < StepUp(sorted, alpha, |sorted|)
  {
    RunningMinIsBh(p, sorted, k);
    StepUpPasses(sorted, alpha, |sorted|);
    var c := StepUp(sorted, alpha, |sorted|);
    if k < c {
      RunningMinAtMost(sorted, k, c - 1);
      StepPasses(sorted, alpha, c - 1);
    } else {
      var q := RunningMinAttained(sorted, k);
      if q != -1 { StepPasses(sorted, alpha, q); }
    }
  }

  // ----- Closed testing -----

  lemma {:induction false} CountAsSet(f: real -> bool, s: seq<real>)
    ensures Count(f, s) == |set k: nat | k < |s| && f(s[k])|
  {
    if s != [] {
      var n := |s| - 1;
      var before := s[..n];
      assert s == before + [s[n]];
      CountAsSet(f, before);
      CountAppend(f, before, [s[n]]);
      assert [s[n]][1..] == [];
      var all, rest := set k: nat | k < |s| && f(s[k]), set k: nat | k < |before| && f(before[k]);
      if f(s[n]) { assert all == rest + {n}; } else { assert all == rest; }
    }
  }

  /** Bonferroni rejects the intersection of the hypotheses in s: some member has |s| * p <= alpha. */
  ghost predicate BonferroniRejects(p: seq<real>, s: set<nat>, alpha: real)
    requires forall k :: k in s ==> k < |p|
  {
    exists k :: k in s && Scaled(p[k], |s|) <= alpha
  }

  /** Every intersection that contains hypothesis i is rejected. */
  ghost predicate ClosedTestRejects(p: seq<real>, i: nat, alpha: real)
    requires i < |p|
  {
    forall s: set<nat> :: (forall k :: k in s ==> k < |p|) && i in s ==> BonferroniRejects(p, s, alpha)
  }

  /**
   Holm is closed Bonferroni testing: hypothesis i is rejected exactly when every set of
   hypotheses that contains it is rejected by Bonferroni.
   */
  lemma {:induction false} HolmIsClosedBonferroni(p: seq<real>, i: nat, alpha: real)
    requires InUnit(p) && i < |p| && 0.0 < alpha < 1.0
    ensures HolmAt(p, p[i]) <= alpha <==> ClosedTestRejects(p, i, alpha)
  {
    if HolmAt(p, p[i]) <= alpha {
      forall s: set<nat> | (forall k :: k in s ==> k < |p|) && i in s ensures BonferroniRejects(p, s, alpha) {
        RejectedSet(p, i, alpha, s);
      }
    } else {
      var s := UnrejectedSet(p, i, alpha);
    }
  }

  lemma {:induction false} RejectedSet(p: seq<real>, i: nat, alpha: real, s: set<nat>)
    requires InUnit(p) && i < |p| && alpha < 1.0 && HolmAt(p, p[i]) <= alpha
    requires i in s && forall k :: k in s ==> k < |p|
    ensures BonferroniRejects(p, s, alpha)
  {
    var j := LeastAmong(p, s);
    CountAsSet(AtLeast(p[j]), p);
    SubsetSize(s, set k: nat | k < |p| && AtLeast(p[j])(p[k]));
    HolmMaxAtLeast(p, p[i], |p|, j);
    HolmValueMono(p[j], p[j], |s|, CountGe(p, p[j]));
    assert Scaled(p[j], |s|) <= alpha;
  }

  lemma {:induction false} UnrejectedSet(p: seq<real>, i: nat, alpha: real) returns (s: set<nat>)
    requires InUnit(p) && i < |p| && 0.0 < alpha && HolmAt(p, p[i]) > alpha
    ensures i in s && (forall k :: k in s ==> k < |p|) && !BonferroniRejects(p, s, alpha)
  {
    var j := HolmMaxAttained(p, p[i], |p|);
    s := IndicesAtLeast(p, p[j]);
    ScaledAbove(p[j], CountGe(p, p[j]), alpha);
    forall k | k in s ensures Scaled(p[k], |s|) > alpha {
      ScaledMono(p[j], p[k], |s|);
    }
  }

  lemma {:induction false} IndicesAtLeast(p: seq<real>, v: real) returns (s: set<nat>)
    ensures |s| == CountGe(p, v) && forall k: nat :: k in s <==> k < |p| && p[k] >= v
  {
    CountAsSet(AtLeast(v), p);
    s := set k: nat | k < |p| && AtLeast(v)(p[k]);
  }

  lemma {:induction false} ScaledAbove(x: real, n: nat, alpha: real)
    requires HolmValue(x, n) > alpha
    ensures Scaled(x, n) > alpha
  {
  }

  lemma {:induction false} ScaledMono(a: real, b: real, n: nat)
    requires 0.0 <= a <= b
    ensures Scaled(a, n) <= Scaled(b, n)
  {
    MulMono(a, b, n as real, n as real);
  }

  /**
   Familywise safety, without probability: unless Bonferroni rejects the set of true
   hypotheses itself, Holm rejects none of them.
   */
  lemma {:induction false} HolmRejectsNoTrueHypothesis(p: seq<real>, truth: set<nat>, i: nat, alpha: real)
    requires InUnit(p) && 0.0 < alpha < 1.0 && i in truth && forall k :: k in truth ==> k < |p|
    requires forall k :: k in truth ==> Scaled(p[k], |truth|) > alpha
    ensures HolmAt(p, p[i]) > alpha
  {
    HolmIsClosedBonferroni(p, i, alpha);
    assert !BonferroniRejects(p, truth, alpha);
  }
}
