/**
 The cluster sign-flip test: whole clusters change sign together, every sign vector is
 tried up to sixteen clusters, and the p-value is the share at least as extreme as observed.
 */
module SignFlip {
  import opened Prelude

  const TOLERANCE := 1.0 / 1_000_000_000_000_000.0
  const EXACT_CLUSTERS := 16

  type Groups = seq<seq<real>>

  type Signs = seq<int>

  predicate IsSigns(s: Signs, n: nat) {
    |s| == n && forall k :: 0 <= k < n ==> s[k] == 1 || s[k] == -1
  }

  function Sum(xs: seq<real>): real {
    if xs == [] then 0.0 else xs[0] + Sum(xs[1..])
  }

  function Mean(xs: seq<real>): real {
    if xs == [] then 0.0 else Sum(xs) / |xs| as real
  }

  function Scale(sign: int, xs: seq<real>): seq<real> {
    seq(|xs|, k requires 0 <= k < |xs| => sign as real * xs[k])
  }

  function Flatten(groups: Groups): seq<real> {
    if groups == [] then [] else groups[0] + Flatten(groups[1..])
  }

  /** The data with each cluster multiplied by its sign. */
  function Flip(s: Signs, groups: Groups): Groups
    requires |s| == |groups|
  {
    seq(|groups|, k requires 0 <= k < |groups| => Scale(s[k], groups[k]))
  }

  function Statistic(s: Signs, groups: Groups): real
    requires |s| == |groups|
  {
    AbsReal(Mean(Flatten(Flip(s, groups))))
  }

  function Observed(groups: Groups): real {
    AbsReal(Mean(Flatten(groups)))
  }

  /** Whether a sign vector is at least as extreme as the data; vectors of the wrong length are not. */
  function Extreme(groups: Groups): Signs -> bool {
    s => |s| == |groups| && Statistic(s, groups) + TOLERANCE >= Observed(groups)
  }

  function Prepend(x: int, vectors: seq<Signs>): seq<Signs> {
    seq(|vectors|, k requires 0 <= k < |vectors| => [x] + vectors[k])
  }

  /** `product((-1, 1), repeat=n)`. */
  function AllSigns(n: nat): seq<Signs> {
    if n == 0 then [[]] else Prepend(-1, AllSigns(n - 1)) + Prepend(1, AllSigns(n - 1))
  }

  function Pow2(n: nat): (r: nat)
    ensures r >= 1
  {
    if n == 0 then 1 else 2 * Pow2(n - 1)
  }

  function ExtremeCount(groups: Groups): nat {
    Count(Extreme(groups), AllSigns(|groups|))
  }

  /** The share of all sign vectors that are extreme. */
  function ExactShare(groups: Groups): real {
    ExtremeCount(groups) as real / Pow2(|groups|) as real
  }

  /** The share of extreme vectors among the draws and the data itself. */
  function SampledShare(groups: Groups, draws: seq<Signs>): real {
    (Count(Extreme(groups), draws) + 1) as real / (|draws| + 1) as real
  }

  /** The exact branch: tries every sign vector once. */
  method ExactSignFlip(groups: Groups) returns (pValue: real, tested: nat, extreme: nat)
    requires groups != []
    ensures tested == Pow2(|groups|) && extreme == ExtremeCount(groups)
    ensures pValue == ExactShare(groups)
    ensures extreme % 2 == 0 && 2 <= extreme <= tested
    ensures 2.0 / Pow2(|groups|) as real <= pValue <= 1.0
  {
    var vectors := AllSigns(|groups|);
    AllSignsSize(|groups|);
    var observed := Observed(groups);
    tested, extreme := 0, 0;
    while tested < |vectors|
      invariant tested <= |vectors|
      invariant extreme == Count(Extreme(groups), vectors[..tested])
    {
      var signs := vectors[tested];
      AllSignsMember(|groups|, tested);
      assert vectors[..tested + 1] == vectors[..tested] + [signs];
      CountAppend(Extreme(groups), vectors[..tested], [signs]);
      assert [signs][1..] == [];
      if Statistic(signs, groups) + TOLERANCE >= observed {
        extreme := extreme + 1;
      }
      tested := tested + 1;
    }
    assert vectors[..tested] == vectors;
    pValue := extreme as real / tested as real;
    ExactBounds(groups);
  }

  lemma {:induction false} ExactBounds(groups: Groups)
    requires groups != []
    ensures ExtremeCount(groups) % 2 == 0 && 2 <= ExtremeCount(groups) <= Pow2(|groups|)
    ensures 2.0 / Pow2(|groups|) as real <= ExactShare(groups) <= 1.0
  {
    AllSignsSize(|groups|);
    ExtremeIsEven(groups);
    IdentityIsExtreme(groups);
    CountExtremes(Extreme(groups), AllSigns(|groups|));
    ShareBounds(ExtremeCount(groups), Pow2(|groups|));
  }

  /** The Monte Carlo branch: draws stand for the seeded random source. */
  method MonteCarloSignFlip(groups: Groups, draws: seq<Signs>) returns (pValue: real, extreme: nat)
    requires forall k :: 0 <= k < |draws| ==> |draws[k]| == |groups|
    ensures extreme == Count(Extreme(groups), draws)
    ensures pValue == SampledShare(groups, draws)
    ensures 1.0 / (|draws| + 1) as real <= pValue <= 1.0
  {
    var observed := Observed(groups);
    extreme := 0;
    for k := 0 to |draws|
      invariant extreme == Count(Extreme(groups), draws[..k])
    {
      assert draws[..k + 1] == draws[..k] + [draws[k]];
      CountAppend(Extreme(groups), draws[..k], [draws[k]]);
      assert [draws[k]][1..] == [];
      if Statistic(draws[k], groups) + TOLERANCE >= observed {
        extreme := extreme + 1;
      }
    }
    assert draws[..|draws|] == draws;
    CountExtremes(Extreme(groups), draws);
    pValue := (extreme + 1) as real / (|draws| + 1) as real;
    MonteCarloBounds(extreme, |draws|);
  }

  lemma {:induction false} ShareBounds(extreme: nat, tested: nat)
    requires 2 <= extreme <= tested
    ensures 2.0 / tested as real <= extreme as real / tested as real <= 1.0
  {
    QuotientOrder(2.0, extreme as real, tested as real);
    QuotientOrder(extreme as real, tested as real, tested as real);
  }

  lemma {:induction false} MonteCarloBounds(extreme: nat, draws: nat)
    requires extreme <= draws
    ensures 1.0 / (draws + 1) as real <= (extreme + 1) as real / (draws + 1) as real <= 1.0
  {
    QuotientOrder(1.0, (extreme + 1) as real, (draws + 1) as real);
    QuotientOrder((extreme + 1) as real, (draws + 1) as real, (draws + 1) as real);
  }

  lemma {:induction false} QuotientOrder(a: real, b: real, n: real)
    requires a <= b && 0.0 < n
    ensures a / n <= b / n
    ensures n / n == 1.0
  {
    assert b / n - a / n == (b - a) / n;
  }

  // ----- The sign vectors -----

  lemma {:induction false} AllSignsSize(n: nat)
    ensures |AllSigns(n)| == Pow2(n)
  {
    if n > 0 { AllSignsSize(n - 1); }
  }

  lemma {:induction false} AllSignsMember(n: nat, k: nat)
    requires k < |AllSigns(n)|
    ensures IsSigns(AllSigns(n)[k], n)
  {
    if n > 0 {
      var half := |AllSigns(n - 1)|;
      AllSignsMember(n - 1, if k < half then k else k - half);
    }
  }

  lemma {:induction false} EverySignVectorListed(s: Signs, n: nat)
    requires IsSigns(s, n)
    ensures s in AllSigns(n)
  {
    if n == 0 {
      assert s == [];
      assert AllSigns(0)[0] == s;
    } else {
      var rest := s[1..];
      EverySignVectorListed(rest, n - 1);
      var k :| 0 <= k < |AllSigns(n - 1)| && AllSigns(n - 1)[k] == rest;
      assert s == [s[0]] + rest;
      assert Prepend(s[0], AllSigns(n - 1))[k] == s;
    }
  }

  lemma {:induction false} CountCongruent<T>(f: T -> bool, g: T -> bool, s: seq<T>)
    requires forall k :: 0 <= k < |s| ==> f(s[k]) == g(s[k])
    ensures Count(f, s) == Count(g, s)
  {
    if s != [] { CountCongruent(f, g, s[1..]); }
  }

  /** f seen through a fixed first sign. */
  function After(f: Signs -> bool, x: int): Signs -> bool { v => f([x] + v) }

  lemma {:induction false} CountPrepend(f: Signs -> bool, x: int, vectors: seq<Signs>)
    ensures Count(f, Prepend(x, vectors)) == Count(After(f, x), vectors)
  {
    if vectors != [] {
      CountPrepend(f, x, vectors[1..]);
      assert Prepend(x, vectors)[1..] == Prepend(x, vectors[1..]);
    }
  }

  lemma {:induction false} CountAllSigns(f: Signs -> bool, n: nat)
    requires n > 0
    ensures Count(f, AllSigns(n)) == Count(After(f, -1), AllSigns(n - 1)) + Count(After(f, 1), AllSigns(n - 1))
  {
    CountAppend(f, Prepend(-1, AllSigns(n - 1)), Prepend(1, AllSigns(n - 1)));
    CountPrepend(f, -1, AllSigns(n - 1));
    CountPrepend(f, 1, AllSigns(n - 1));
  }

  /** The pointwise product of two sign vectors. */
  function Times(s: Signs, v: Signs): Signs {
    seq(|v|, k requires 0 <= k < |v| => (if k < |s| then s[k] else 1) * v[k])
  }

  function Twisted(f: Signs -> bool, s: Signs): Signs -> bool { v => f(Times(s, v)) }

  /** Multiplying by a fixed sign vector only reorders the list, so it changes no count. */
  lemma {:induction false} TwistKeepsCount(f: Signs -> bool, s: Signs, n: nat)
    requires IsSigns(s, n)
    ensures Count(Twisted(f, s), AllSigns(n)) == Count(f, AllSigns(n))
  {
    if n == 0 {
      assert Times(s, []) == [];
      CountCongruent(Twisted(f, s), f, AllSigns(0));
    } else {
      var rest := s[1..];
      CountAllSigns(f, n);
      CountAllSigns(Twisted(f, s), n);
      TwistedHalf(f, s, -1, -s[0], n);
      TwistedHalf(f, s, 1, s[0], n);
      TwistKeepsCount(After(f, s[0]), rest, n - 1);
      TwistKeepsCount(After(f, -s[0]), rest, n - 1);
      assert s[0] == 1 || s[0] == -1;
    }
  }

  lemma {:induction false} TwistedHalf(f: Signs -> bool, s: Signs, x: int, y: int, n: nat)
    requires n > 0 && IsSigns(s, n) && y == s[0] * x
    ensures Count(After(Twisted(f, s), x), AllSigns(n - 1)) == Count(Twisted(After(f, y), s[1..]), AllSigns(n - 1))
  {
    var vectors := AllSigns(n - 1);
    forall k | 0 <= k < |vectors|
      ensures After(Twisted(f, s), x)(vectors[k]) == Twisted(After(f, y), s[1..])(vectors[k])
    {
      AllSignsMember(n - 1, k);
      TimesCons(s, x, y, vectors[k]);
    }
    CountCongruent(After(Twisted(f, s), x), Twisted(After(f, y), s[1..]), vectors);
  }

  lemma {:induction false} TimesCons(s: Signs, x: int, y: int, v: Signs)
    requires s != [] && |v| == |s| - 1 && y == s[0] * x
    ensures Times(s, [x] + v) == [y] + Times(s[1..], v)
  {
    forall k | 0 <= k < |s| ensures Times(s, [x] + v)[k] == ([y] + Times(s[1..], v))[k] {
      if k > 0 { assert s[1..][k - 1] == s[k] && ([x] + v)[k] == v[k - 1]; }
    }
  }

  // ----- The statistic under sign changes -----

  lemma {:induction false} SumAppend(xs: seq<real>, ys: seq<real>)
    ensures Sum(xs + ys) == Sum(xs) + Sum(ys)
  {
    if xs == [] {
      assert xs + ys == ys;
    } else {
      assert (xs + ys)[1..] == xs[1..] + ys;
      SumAppend(xs[1..], ys);
    }
  }

  lemma {:induction false} ScaleSum(sign: int, xs: seq<real>)
    ensures Sum(Scale(sign, xs)) == sign as real * Sum(xs)
  {
    if xs != [] {
      ScaleSum(sign, xs[1..]);
      var c := sign as real;
      var tail := Scale(sign, xs[1..]);
      forall k | 0 <= k < |tail| ensures tail[k] == Scale(sign, xs)[1..][k] {
        assert xs[1..][k] == xs[k + 1];
      }
      assert tail == Scale(sign, xs)[1..];
      assert c * (xs[0] + Sum(xs[1..])) == c * xs[0] + c * Sum(xs[1..]);
    }
  }

  function Constant(x: int, n: nat): Signs { seq(n, _ => x) }

  /** Flipping the data by s and then by v is flipping it once by the product. */
  lemma {:induction false} FlipTwice(s: Signs, v: Signs, groups: Groups)
    requires IsSigns(s, |groups|) && |v| == |groups|
    ensures Flip(v, Flip(s, groups)) == Flip(Times(s, v), groups)
  {
    forall k | 0 <= k < |groups| ensures Flip(v, Flip(s, groups))[k] == Flip(Times(s, v), groups)[k] {
      ScaleTwice(s[k], v[k], groups[k]);
    }
  }

  lemma {:induction false} ScaleTwice(a: int, b: int, xs: seq<real>)
    requires a == 1 || a == -1
    ensures Scale(b, Scale(a, xs)) == Scale(a * b, xs)
  {
    assert (a * b) as real == b as real * a as real;
    forall k | 0 <= k < |xs| ensures Scale(b, Scale(a, xs))[k] == Scale(a * b, xs)[k] {
      assert b as real * (a as real * xs[k]) == (b as real * a as real) * xs[k];
    }
  }

  lemma {:induction false} FlipByOnes(groups: Groups)
    ensures Flip(Constant(1, |groups|), groups) == groups
  {
    forall k | 0 <= k < |groups| ensures Flip(Constant(1, |groups|), groups)[k] == groups[k] {
      assert Scale(1, groups[k]) == groups[k];
    }
  }

  lemma {:induction false} NegatedSum(groups: Groups)
    ensures Sum(Flatten(Flip(Constant(-1, |groups|), groups))) == -Sum(Flatten(groups))
    ensures |Flatten(Flip(Constant(-1, |groups|), groups))| == |Flatten(groups)|
  {
    var flipped := Flip(Constant(-1, |groups|), groups);
    if groups != [] {
      NegatedSum(groups[1..]);
      assert flipped[1..] == Flip(Constant(-1, |groups[1..]|), groups[1..]);
      ScaleSum(-1, groups[0]);
      SumAppend(flipped[0], Flatten(flipped[1..]));
      SumAppend(groups[0], Flatten(groups[1..]));
    }
  }

  lemma {:induction false} NegatedObserved(groups: Groups)
    ensures Observed(Flip(Constant(-1, |groups|), groups)) == Observed(groups)
  {
    NegatedSum(groups);
    var flipped := Flatten(Flip(Constant(-1, |groups|), groups));
    if Flatten(groups) != [] {
      NegatedQuotient(Sum(Flatten(groups)), |Flatten(groups)| as real);
      assert Mean(flipped) == -Mean(Flatten(groups));
    }
  }

  lemma {:induction false} NegatedQuotient(a: real, n: real)
    requires n > 0.0
    ensures -a / n == -(a / n)
  {
    assert -a / n + a / n == (-a + a) / n;
  }

  /** A sign vector and its negation are equally extreme. */
  lemma {:induction false} NegationIsAsExtreme(s: Signs, groups: Groups)
    requires IsSigns(s, |groups|)
    ensures Statistic(Times(Constant(-1, |groups|), s), groups) == Statistic(s, groups)
  {
    var minus := Constant(-1, |groups|);
    assert IsSigns(minus, |groups|);
    assert Times(minus, s) == Times(s, minus);
    FlipTwice(s, minus, groups);
    NegatedObserved(Flip(s, groups));
  }

  /** Extreme vectors come in pairs s, -s with the first sign separating them. */
  lemma {:induction false} ExtremeIsEven(groups: Groups)
    requires groups != []
    ensures ExtremeCount(groups) % 2 == 0
  {
    HalvesAgree(groups);
    EqualHalves(Extreme(groups), |groups|);
  }

  lemma {:induction false} EqualHalves(f: Signs -> bool, n: nat)
    requires n > 0 && Count(After(f, 1), AllSigns(n - 1)) == Count(After(f, -1), AllSigns(n - 1))
    ensures Count(f, AllSigns(n)) % 2 == 0
  {
    CountAllSigns(f, n);
  }

  lemma {:induction false} HalvesAgree(groups: Groups)
    requires groups != []
    ensures Count(After(Extreme(groups), 1), AllSigns(|groups| - 1))
            == Count(After(Extreme(groups), -1), AllSigns(|groups| - 1))
  {
    var f, vectors, minus := Extreme(groups), AllSigns(|groups| - 1), Constant(-1, |groups| - 1);
    AllAreSigns(|groups| - 1);
    OppositeHalves(groups, f, vectors, minus);
    TwistedHalves(After(f, 1), After(f, -1), minus, |groups| - 1);
  }

  lemma {:induction false} AllAreSigns(n: nat)
    ensures forall k :: 0 <= k < |AllSigns(n)| ==> IsSigns(AllSigns(n)[k], n)
  {
    forall k | 0 <= k < |AllSigns(n)| ensures IsSigns(AllSigns(n)[k], n) {
      AllSignsMember(n, k);
    }
  }

  lemma {:induction false} TwistedHalves(g: Signs -> bool, h: Signs -> bool, minus: Signs, n: nat)
    requires IsSigns(minus, n) && forall k :: 0 <= k < |AllSigns(n)| ==>
            g(AllSigns(n)[k]) == Twisted(h, minus)(AllSigns(n)[k])
    ensures Count(g, AllSigns(n)) == Count(h, AllSigns(n))
  {
    CountCongruent(g, Twisted(h, minus), AllSigns(n));
    TwistKeepsCount(h, minus, n);
  }

  lemma {:induction false} OppositeHalves(groups: Groups, f: Signs -> bool, vectors: seq<Signs>, minus: Signs)
    requires groups != [] && f == Extreme(groups) && minus == Constant(-1, |groups| - 1)
    requires forall k :: 0 <= k < |vectors| ==> IsSigns(vectors[k], |groups| - 1)
    ensures forall k :: 0 <= k < |vectors| ==> After(f, 1)(vectors[k]) == Twisted(After(f, -1), minus)(vectors[k])
  {
    forall k | 0 <= k < |vectors| ensures After(f, 1)(vectors[k]) == Twisted(After(f, -1), minus)(vectors[k]) {
      OppositeIsAsExtreme(groups, vectors[k]);
    }
  }

  lemma {:induction false} OppositeIsAsExtreme(groups: Groups, v: Signs)
    requires groups != [] && IsSigns(v, |groups| - 1)
    ensures Extreme(groups)([1] + v) == Extreme(groups)([-1] + Times(Constant(-1, |groups| - 1), v))
  {
    var n := |groups|;
    var s := [1] + v;
    assert IsSigns(s, n);
    NegationIsAsExtreme(s, groups);
    TimesCons(Constant(-1, n), 1, -1, v);
    assert Constant(-1, n)[1..] == Constant(-1, n - 1);
  }

  /** The data themselves are one of the extreme vectors, so at least two are. */
  lemma {:induction false} IdentityIsExtreme(groups: Groups)
    requires groups != []
    ensures ExtremeCount(groups) >= 2
  {
    var ones := Constant(1, |groups|);
    FlipByOnes(groups);
    assert IsSigns(ones, |groups|);
    EverySignVectorListed(ones, |groups|);
    CountPositive(Extreme(groups), AllSigns(|groups|), ones);
    ExtremeIsEven(groups);
  }

  // ----- What the p-value means -----

  /** Vectors whose statistic on the unflipped data reaches that of s. */
  function Reaches(groups: Groups, s: Signs): Signs -> bool
    requires |s| == |groups|
  {
    v => |v| == |groups| && Statistic(v, groups) + TOLERANCE >= Statistic(s, groups)
  }

  /** Re-running the test on data flipped by s counts the vectors that reach s. */
  lemma {:induction false} FlippedExtremeCount(groups: Groups, s: Signs)
    requires IsSigns(s, |groups|)
    ensures ExtremeCount(Flip(s, groups)) == Count(Reaches(groups, s), AllSigns(|groups|))
  {
    var vectors := AllSigns(|groups|);
    forall k | 0 <= k < |vectors|
      ensures Extreme(Flip(s, groups))(vectors[k]) == Twisted(Reaches(groups, s), s)(vectors[k])
    {
      AllSignsMember(|groups|, k);
      FlipTwice(s, vectors[k], groups);
    }
    CountCongruent(Extreme(Flip(s, groups)), Twisted(Reaches(groups, s), s), vectors);
    TwistKeepsCount(Reaches(groups, s), s, |groups|);
  }

  /** Negating every observation leaves the exact test unchanged. */
  lemma {:induction false} NegationInvariance(groups: Groups)
    ensures ExtremeCount(Flip(Constant(-1, |groups|), groups)) == ExtremeCount(groups)
  {
    var minus := Constant(-1, |groups|);
    assert IsSigns(minus, |groups|);
    FlippedExtremeCount(groups, minus);
    NegatedObserved(groups);
    CountCongruent(Reaches(groups, minus), Extreme(groups), AllSigns(|groups|));
  }

  /** Negating every observation leaves the Monte Carlo test unchanged, for the same draws. */
  lemma {:induction false} MonteCarloNegationInvariance(groups: Groups, draws: seq<Signs>)
    requires forall k :: 0 <= k < |draws| ==> IsSigns(draws[k], |groups|)
    ensures Count(Extreme(Flip(Constant(-1, |groups|), groups)), draws) == Count(Extreme(groups), draws)
  {
    var minus := Constant(-1, |groups|);
    assert IsSigns(minus, |groups|);
    NegatedObserved(groups);
    forall k | 0 <= k < |draws| ensures Extreme(Flip(minus, groups))(draws[k]) == Extreme(groups)(draws[k]) {
      FlipTwice(minus, draws[k], groups);
      NegationIsAsExtreme(draws[k], groups);
    }
    CountCongruent(Extreme(Flip(minus, groups)), Extreme(groups), draws);
  }

  /** Sign vectors under which the test would count at most k extreme vectors. */
  function AtMostExtreme(groups: Groups, k: nat): Signs -> bool {
    s => |s| == |groups| && ExtremeCount(Flip(s, groups)) <= k
  }

  lemma {:induction false} LeastExtreme(f: Signs -> bool, vectors: seq<Signs>, groups: Groups) returns (least: Signs)
    requires Count(f, vectors) > 0 && forall i :: 0 <= i < |vectors| ==> |vectors[i]| == |groups|
    ensures least in vectors && f(least) && |least| == |groups|
    ensures forall i :: 0 <= i < |vectors| && f(vectors[i]) ==>
            Statistic(least, groups) <= Statistic(vectors[i], groups)
  {
    var rest := vectors[1..];
    if Count(f, rest) > 0 {
      least := LeastExtreme(f, rest, groups);
      assert least in vectors;
      if f(vectors[0]) && Statistic(vectors[0], groups) < Statistic(least, groups) {
        least := vectors[0];
      }
    } else {
      least := vectors[0];
      forall i | 0 <= i < |vectors| && f(vectors[i]) ensures i == 0 {
        if i > 0 {
          assert vectors[i] == rest[i - 1];
          CountPositive(f, rest, vectors[i]);
        }
      }
    }
  }

  /**
   The exact test is valid: over all sign patterns the data could have had, at most k of the
   2^n give k or fewer extreme vectors, so a p-value of k / 2^n or less has share at most k / 2^n.
   */
  lemma {:induction false} ExactTestIsValid(groups: Groups, k: nat)
    ensures Count(AtMostExtreme(groups, k), AllSigns(|groups|)) <= k
  {
    var f := AtMostExtreme(groups, k);
    var vectors := AllSigns(|groups|);
    forall i | 0 <= i < |vectors| ensures IsSigns(vectors[i], |groups|) {
      AllSignsMember(|groups|, i);
    }
    if Count(f, vectors) > 0 {
      var least := LeastExtreme(f, vectors, groups);
      assert IsSigns(least, |groups|);
      CountImplies(f, Reaches(groups, least), vectors);
      FlippedExtremeCount(groups, least);
    }
  }
}
