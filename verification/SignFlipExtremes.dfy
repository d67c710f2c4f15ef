/** The sign-flip test in terms of cluster totals: which vectors are extreme, and how many there can be at least. */
module SignFlipExtremes {
  import opened Prelude
  import opened SignFlip
  import R = Resampling

  /** The sum of all values, cluster by cluster. */
  function Total(groups: Groups): real {
    if groups == [] then 0.0 else Sum(groups[0]) + Total(groups[1..])
  }

  /** The same with each cluster's sum taken with its sign. */
  function SignedTotal(s: Signs, groups: Groups): real
    requires |s| == |groups|
  {
    if groups == [] then 0.0 else s[0] as real * Sum(groups[0]) + SignedTotal(s[1..], groups[1..])
  }

  /** How many values there are. */
  function Size(groups: Groups): nat {
    if groups == [] then 0 else |groups[0]| + Size(groups[1..])
  }

  /** The signed total is as large as the plain one, but for the tolerance. */
  function ReachesTotal(groups: Groups): Signs -> bool {
    s => |s| == |groups| &&
      AbsReal(SignedTotal(s, groups)) + Size(groups) as real / 1_000_000_000_000_000.0 >= AbsReal(Total(groups))
  }

  lemma {:induction false} FlattenTotals(groups: Groups)
    ensures Sum(Flatten(groups)) == Total(groups) && |Flatten(groups)| == Size(groups)
  {
    if groups != [] {
      FlattenTotals(groups[1..]);
      SumAppend(groups[0], Flatten(groups[1..]));
    }
  }

  lemma {:induction false} FlippedTotals(s: Signs, groups: Groups)
    requires |s| == |groups|
    ensures Total(Flip(s, groups)) == SignedTotal(s, groups) && Size(Flip(s, groups)) == Size(groups)
  {
    if groups != [] {
      FlippedTotals(s[1..], groups[1..]);
      assert Flip(s, groups)[1..] == Flip(s[1..], groups[1..]);
      ScaleSum(s[0], groups[0]);
    }
  }

  lemma {:induction false} AbsQuotient(a: real, n: real)
    requires n > 0.0
    ensures AbsReal(a / n) == AbsReal(a) / n
  {
    QuotientBounds(a, n, 0.0);
    NegatedQuotient(a, n);
  }

  lemma {:induction false} ReachesAsQuotients(a: real, b: real, n: real, t: real)
    requires n > 0.0
    ensures AbsReal(a / n) + t >= AbsReal(b / n) <==> AbsReal(a) + n * t >= AbsReal(b)
  {
    AbsQuotient(a, n);
    AbsQuotient(b, n);
    var x, y := AbsReal(a / n), AbsReal(b / n);
    QuotientTimes(AbsReal(a), n);
    QuotientTimes(AbsReal(b), n);
    assert (x + t) * n == x * n + n * t;
    ScaleOrder(x + t, y, n);
    ScaleOrder(y, x + t, n);
  }

  /** A sign vector is extreme exactly when its signed total reaches the plain one, within N / 10^15 for N values. */
  lemma {:induction false} ExtremeExactly(groups: Groups, s: Signs)
    requires |s| == |groups|
    ensures Extreme(groups)(s)
            <==> AbsReal(SignedTotal(s, groups)) + Size(groups) as real / 1_000_000_000_000_000.0
                 >= AbsReal(Total(groups))
  {
    FlattenTotals(groups);
    FlattenTotals(Flip(s, groups));
    FlippedTotals(s, groups);
    var n := Size(groups) as real;
    if n > 0.0 {
      ReachesAsQuotients(SignedTotal(s, groups), Total(groups), n, TOLERANCE);
      assert n * TOLERANCE == n / 1_000_000_000_000_000.0;
    } else {
      assert Flatten(groups) == [] && Flatten(Flip(s, groups)) == [];
    }
  }

  // ----- The smallest p-value -----

  lemma {:induction false} SignedWithin(s: Signs, groups: Groups, slack: real)
    requires IsSigns(s, |groups|) && slack >= 0.0 && forall k :: 0 <= k < |groups| ==> Sum(groups[k]) > slack
    ensures -Total(groups) <= SignedTotal(s, groups) <= Total(groups)
    ensures -1 in s ==> SignedTotal(s, groups) < Total(groups) - 2.0 * slack
    ensures 1 in s ==> SignedTotal(s, groups) > -Total(groups) + 2.0 * slack
  {
    if groups != [] {
      SignedWithin(s[1..], groups[1..], slack);
      assert s == [s[0]] + s[1..];
    }
  }

  lemma {:induction false} SignedConstant(x: int, groups: Groups)
    ensures SignedTotal(Constant(x, |groups|), groups) == x as real * Total(groups)
  {
    if groups != [] {
      SignedConstant(x, groups[1..]);
      assert Constant(x, |groups|)[1..] == Constant(x, |groups| - 1);
      assert x as real * (Sum(groups[0]) + Total(groups[1..])) == x as real * Sum(groups[0]) + x as real *
        Total(groups[1..]);
    }
  }

  /** When every cluster's sum exceeds the tolerance, only the data and their negation are extreme. */
  lemma {:induction false} OnlyConstantsAreExtreme(groups: Groups, s: Signs)
    requires groups != [] && IsSigns(s, |groups|)
    requires forall k :: 0 <= k < |groups| ==> Sum(groups[k]) > Size(groups) as real / 1_000_000_000_000_000.0
    ensures Extreme(groups)(s) <==> s == Constant(1, |groups|) || s == Constant(-1, |groups|)
  {
    var slack := Size(groups) as real / 1_000_000_000_000_000.0;
    ExtremeExactly(groups, s);
    SignedWithin(s, groups, slack);
    SignedConstant(1, groups);
    SignedConstant(-1, groups);
    if -1 !in s {
      assert s == Constant(1, |groups|);
    } else if 1 !in s {
      assert s == Constant(-1, |groups|);
    }
  }

  function Is(w: Signs): Signs -> bool { s => s == w }

  function IsConstant(n: nat): Signs -> bool { s => s == Constant(1, n) || s == Constant(-1, n) }

  /** The enumeration lists every sign vector once. */
  lemma {:induction false} ListedOnce(w: Signs, n: nat)
    requires IsSigns(w, n)
    ensures Count(Is(w), AllSigns(n)) == 1
  {
    if n == 0 {
      assert w == [] && AllSigns(0)[1..] == [];
    } else {
      CountAllSigns(Is(w), n);
      ListedOnce(w[1..], n - 1);
      AfterIs(w, w[0], AllSigns(n - 1));
      AfterIs(w, -w[0], AllSigns(n - 1));
    }
  }

  lemma {:induction false} AfterIs(w: Signs, x: int, vectors: seq<Signs>)
    requires w != []
    ensures Count(After(Is(w), x), vectors) == if x == w[0] then Count(Is(w[1..]), vectors) else 0
  {
    if vectors != [] {
      AfterIs(w, x, vectors[1..]);
      assert ([x] + vectors[0])[1..] == vectors[0];
      assert w == [w[0]] + w[1..];
    }
  }

  lemma {:induction false} CountEither(v: Signs, w: Signs, f: Signs -> bool, vectors: seq<Signs>)
    requires v != w && forall s :: f(s) <==> s == v || s == w
    ensures Count(f, vectors) == Count(Is(v), vectors) + Count(Is(w), vectors)
  {
    if vectors != [] { CountEither(v, w, f, vectors[1..]); }
  }

  lemma {:induction false} TwoConstants(n: nat)
    requires n >= 1
    ensures Count(IsConstant(n), AllSigns(n)) == 2
  {
    var ones, minus := Constant(1, n), Constant(-1, n);
    assert ones[0] != minus[0];
    CountEither(ones, minus, IsConstant(n), AllSigns(n));
    ListedOnce(ones, n);
    ListedOnce(minus, n);
  }

  /** Clusters that all point one way, beyond the tolerance, give the smallest exact p-value there is, 2 / 2^c. */
  lemma {:induction false} UnanimousClusters(groups: Groups)
    requires groups != []
    requires forall k :: 0 <= k < |groups| ==> Sum(groups[k]) > Size(groups) as real / 1_000_000_000_000_000.0
    ensures ExtremeCount(groups) == 2 && ExactShare(groups) == 2.0 / Pow2(|groups|) as real
  {
    var n := |groups|;
    AllAreSigns(n);
    forall k | 0 <= k < |AllSigns(n)| ensures Extreme(groups)(AllSigns(n)[k]) == IsConstant(n)(AllSigns(n)[k]) {
      OnlyConstantsAreExtreme(groups, AllSigns(n)[k]);
    }
    CountCongruent(Extreme(groups), IsConstant(n), AllSigns(n));
    TwoConstants(n);
  }

  // ----- The published p-value -----

  lemma {:induction false} CountReaching(groups: Groups, vectors: seq<Signs>)
    requires forall k :: 0 <= k < |vectors| ==> |vectors[k]| == |groups|
    ensures Count(Extreme(groups), vectors) == Count(ReachesTotal(groups), vectors)
  {
    forall k | 0 <= k < |vectors| ensures Extreme(groups)(vectors[k]) == ReachesTotal(groups)(vectors[k]) {
      ExtremeExactly(groups, vectors[k]);
    }
    CountCongruent(Extreme(groups), ReachesTotal(groups), vectors);
  }

  /** Up to sixteen clusters the p-value is the share of all sign vectors whose signed total reaches the plain one. */
  lemma {:induction false} ExactPValueCounts(values: seq<R.Observation>, permutations: nat, rng: (nat, nat) -> bool)
    requires |R.NamesOf(values)| <= 16
    ensures var groups := R.GroupsFor(R.NamesOf(values), values);
            R.FlipPValue(values, permutations, rng)
            == Count(ReachesTotal(groups), AllSigns(|groups|)) as real / Pow2(|groups|) as real
  {
    AllAreSigns(|R.NamesOf(values)|);
    CountReaching(R.GroupsFor(R.NamesOf(values), values), AllSigns(|R.NamesOf(values)|));
  }

  /** The k-th draw gives the i-th cluster the sign that the generator's coin says. */
  ghost predicate Drawn(draws: seq<Signs>, clusters: nat, rng: (nat, nat) -> bool) {
    forall k :: 0 <= k < |draws| ==>
      |draws[k]| == clusters && forall i :: 0 <= i < clusters ==> draws[k][i] == if rng(k, i) then 1 else -1
  }

  lemma {:induction false} DrawnAreCoins(draws: seq<Signs>, clusters: nat, rng: (nat, nat) -> bool)
    requires Drawn(draws, clusters, rng)
    ensures draws == R.CoinDraws(|draws|, clusters, rng)
  {
    forall k | 0 <= k < |draws| ensures draws[k] == R.CoinDraws(|draws|, clusters, rng)[k] {
    }
  }

  /** Beyond sixteen clusters it counts them among the draws and adds one to both sides of the share. */
  lemma {:induction false} SampledPValueCounts(values: seq<R.Observation>, rng: (nat, nat) -> bool, draws: seq<Signs>)
    requires |R.NamesOf(values)| > 16 && Drawn(draws, |R.NamesOf(values)|, rng)
    ensures R.FlipPValue(values, |draws|, rng)
            == (Count(ReachesTotal(R.GroupsFor(R.NamesOf(values), values)), draws) + 1) as real
               / (|draws| + 1) as real
  {
    DrawnAreCoins(draws, |R.NamesOf(values)|, rng);
    CountReaching(R.GroupsFor(R.NamesOf(values), values), draws);
  }
}
