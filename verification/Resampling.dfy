/** Grouping observations by task cluster, the sign-flip entry point and the percentile bootstrap. */
module Resampling {
  import opened Prelude
  import opened Sorting
  import opened SignFlip

  datatype Observation = Observation(cluster: string, value: real)

  datatype ResampleError =
    | NoValues | BadPermutations | BadConfidence | BadResamples | BadMinimumClusters | BlankCluster

  function ValueOf(o: Observation): real { o.value }

  /** The values of one cluster, in input order. */
  function GroupOf(values: seq<Observation>, name: string): seq<real> {
    if values == [] then []
    else
      var last := values[|values| - 1];
      GroupOf(values[..|values| - 1], name) + (if last.cluster == name then [last.value] else [])
  }

  /** The clusters in order of first appearance. */
  function Appearances(values: seq<Observation>): (names: seq<string>)
    ensures Distinct(names)
    ensures forall k :: 0 <= k < |values| ==> values[k].cluster in names
    ensures values != [] ==> names != []
    ensures |names| <= |values|
  {
    if values == [] then []
    else
      var before := Appearances(values[..|values| - 1]);
      var name := values[|values| - 1].cluster;
      if name in before then before else before + [name]
  }

  function NamesOf(values: seq<Observation>): seq<string> {
    Sort(Appearances(values), StringLe)
  }

  function GroupsFor(names: seq<string>, values: seq<Observation>): Groups {
    seq(|names|, k requires 0 <= k < |names| => GroupOf(values, names[k]))
  }

  predicate Blank(values: seq<Observation>) {
    exists k :: 0 <= k < |values| && values[k].cluster == ""
  }

  /** What the dictionary holds after the observations seen so far. */
  ghost predicate Collected(seen: seq<Observation>, order: seq<string>, clusters: map<string, seq<real>>) {
    && order == Appearances(seen)
    && (forall name :: name in order <==> name in clusters)
    && (forall name :: name in clusters ==> clusters[name] == GroupOf(seen, name))
    && (forall name :: name !in clusters ==> GroupOf(seen, name) == [])
  }

  lemma {:induction false} GroupOfSnoc(seen: seq<Observation>, o: Observation, name: string)
    ensures GroupOf(seen + [o], name) == GroupOf(seen, name) + (if o.cluster == name then [o.value] else [])
  {
    assert (seen + [o])[..|seen|] == seen;
  }

  lemma {:induction false} AppearancesSnoc(seen: seq<Observation>, o: Observation)
    ensures Appearances(seen + [o]) == if o.cluster in Appearances(seen) then Appearances(seen)
            else Appearances(seen) + [o.cluster]
  {
    assert (seen + [o])[..|seen|] == seen;
  }

  method Collect(o: Observation, order: seq<string>, clusters: map<string, seq<real>>, ghost seen: seq<Observation>)
    returns (order': seq<string>, clusters': map<string, seq<real>>)
    requires Collected(seen, order, clusters)
    ensures Collected(seen + [o], order', clusters')
  {
    order', clusters' := order, clusters;
    if o.cluster !in clusters' {
      clusters' := clusters'[o.cluster := []];
      order' := order' + [o.cluster];
    }
    clusters' := clusters'[o.cluster := clusters'[o.cluster] + [o.value]];
    AppearancesSnoc(seen, o);
    forall name ensures GroupOf(seen + [o], name)
      == GroupOf(seen, name) + (if o.cluster == name then [o.value] else []) {
      GroupOfSnoc(seen, o, name);
    }
  }

  /** `clusters.setdefault(cluster, []).append(value)` over all values. */
  method CollectAll(values: seq<Observation>) returns (order: seq<string>, clusters: map<string, seq<real>>)
    ensures Collected(values, order, clusters)
  {
    clusters := map[];
    order := [];
    assert Collected([], order, clusters);
    ghost var seen: seq<Observation> := [];
    for k := 0 to |values|
      invariant seen == values[..k] && Collected(seen, order, clusters)
    {
      order, clusters := Collect(values[k], order, clusters, seen);
      seen := seen + [values[k]];
    }
    assert seen == values;
  }

  /** Each name's values, in the order of the names. */
  method Lookup(names: seq<string>, clusters: map<string, seq<real>>, ghost values: seq<Observation>)
    returns (groups: Groups)
    requires forall name :: name in names ==> name in clusters && clusters[name] == GroupOf(values, name)
    ensures groups == GroupsFor(names, values)
  {
    groups := [];
    for k := 0 to |names|
      invariant |groups| == k
      invariant forall i :: 0 <= i < k ==> groups[i] == GroupOf(values, names[i])
    {
      assert names[k] in names;
      groups := groups + [clusters[names[k]]];
    }
  }

  /** The clusters in sorted name order, each with its values. */
  method GroupByCluster(values: seq<Observation>) returns (grouped: Result<(seq<string>, Groups), ResampleError>)
    ensures grouped.Err? <==> Blank(values)
    ensures grouped.Err? ==> grouped.error == BlankCluster
    ensures grouped.Ok? ==> grouped.value.0 == NamesOf(values) && grouped.value.1 == GroupsFor(NamesOf(values), values)
  {
    if Blank(values) {
      return Err(BlankCluster);
    }
    var order, clusters := CollectAll(values);
    var names := Sort(order, StringLe);
    SortPermutes(order, StringLe);
    var groups := Lookup(names, clusters, values);
    return Ok((names, groups));
  }

  // ----- Grouping neither loses nor repeats a value -----

  lemma {:induction false} GroupsGainOne(names: seq<string>, values: seq<Observation>, o: Observation)
    requires Distinct(names)
    ensures multiset(Flatten(GroupsFor(names, values + [o]))) ==
            multiset(Flatten(GroupsFor(names, values))) + (if o.cluster in names then multiset{o.value} else multiset{})
  {
    if names != [] {
      var rest := names[1..];
      assert names == [names[0]] + rest;
      GroupsGainOne(rest, values, o);
      GroupOfSnoc(values, o, names[0]);
      FlattenFirst(names, values + [o]);
      FlattenFirst(names, values);
    }
  }

  lemma {:induction false} FlattenFirst(names: seq<string>, values: seq<Observation>)
    requires names != []
    ensures Flatten(GroupsFor(names, values)) == GroupOf(values, names[0]) + Flatten(GroupsFor(names[1..], values))
  {
    assert GroupsFor(names, values)[1..] == GroupsFor(names[1..], values);
  }

  lemma {:induction false} EmptyGroups(names: seq<string>)
    ensures Flatten(GroupsFor(names, [])) == []
  {
    if names != [] {
      EmptyGroups(names[1..]);
      assert GroupsFor(names, [])[1..] == GroupsFor(names[1..], []);
    }
  }

  lemma {:induction false} GroupingKeepsValues(names: seq<string>, values: seq<Observation>)
    requires Distinct(names) && forall k :: 0 <= k < |values| ==> values[k].cluster in names
    ensures multiset(Flatten(GroupsFor(names, values))) == multiset(MapSeq(ValueOf, values))
  {
    if values == [] {
      EmptyGroups(names);
    } else {
      var before, last := values[..|values| - 1], values[|values| - 1];
      assert values == before + [last];
      assert forall k :: 0 <= k < |before| ==> before[k] == values[k];
      GroupingKeepsValues(names, before);
      GroupsGainOne(names, before, last);
      MapAppend(ValueOf, before, [last]);
      assert MapSeq(ValueOf, [last]) == [ValueOf(last)];
    }
  }

  lemma {:induction false} SumForgetsOrder(xs: seq<real>, ys: seq<real>)
    requires multiset(xs) == multiset(ys)
    ensures Sum(xs) == Sum(ys)
  {
    if xs == [] {
      assert |multiset(ys)| == 0;
    } else {
      var i, rest := TakeOut(xs, ys);
      SumForgetsOrder(xs[1..], rest);
      SumAppend(ys[..i], [xs[0]] + ys[i + 1..]);
      SumAppend(ys[..i], ys[i + 1..]);
      assert ([xs[0]] + ys[i + 1..])[1..] == ys[i + 1..];
    }
  }

  lemma {:induction false} NamesCover(values: seq<Observation>)
    ensures Distinct(NamesOf(values)) && |NamesOf(values)| == |Appearances(values)|
    ensures forall k :: 0 <= k < |values| ==> values[k].cluster in NamesOf(values)
    ensures forall i, j :: 0 <= i < j < |NamesOf(values)| ==> StringLe(NamesOf(values)[i], NamesOf(values)[j])
  {
    var order := Appearances(values);
    SortPermutes(order, StringLe);
    StringLeIsOrder();
    SortOrdered(order, StringLe);
    ElementsSize(order);
    ElementsSize(NamesOf(values));
    assert Elements(order) == Elements(NamesOf(values));
  }

  /** The mean over the grouped values is the mean over the values. */
  lemma {:induction false} GroupedMean(values: seq<Observation>)
    ensures multiset(Flatten(GroupsFor(NamesOf(values), values))) == multiset(MapSeq(ValueOf, values))
    ensures Mean(Flatten(GroupsFor(NamesOf(values), values))) == Mean(MapSeq(ValueOf, values))
  {
    var flat, plain := Flatten(GroupsFor(NamesOf(values), values)), MapSeq(ValueOf, values);
    NamesCover(values);
    GroupingKeepsValues(NamesOf(values), values);
    MultisetFacts(flat, plain);
    SumForgetsOrder(flat, plain);
  }

  // ----- Sign flip -----

  datatype SignFlipResult = SignFlipResult(observedMean: real, pValue: real, clusterCount: nat, draws: nat, exact: bool)

  function CoinDraws(permutations: nat, clusters: nat, rng: (nat, nat) -> bool): (draws: seq<Signs>)
    ensures |draws| == permutations && forall k :: 0 <= k < permutations ==> IsSigns(draws[k], clusters)
  {
    seq(permutations, k requires 0 <= k < permutations =>
      seq(clusters, i requires 0 <= i < clusters => if rng(k, i) then 1 else -1))
  }

  /** The share of all sign vectors, or of the drawn ones and the data together, that are as extreme as the data. */
  function FlipPValue(values: seq<Observation>, permutations: nat, rng: (nat, nat) -> bool): real {
    var groups := GroupsFor(NamesOf(values), values);
    if |groups| <= EXACT_CLUSTERS then ExactShare(groups)
      else SampledShare(groups, CoinDraws(permutations, |groups|, rng))
  }

  ghost predicate DescribesFlips(r: SignFlipResult, values: seq<Observation>, permutations: int,
      rng: (nat, nat) -> bool)
    requires permutations >= 1
  {
    && r.observedMean == Mean(MapSeq(ValueOf, values))
    && r.clusterCount == |NamesOf(values)|
    && (r.exact <==> r.clusterCount <= EXACT_CLUSTERS)
    && r.draws == (if r.exact then Pow2(r.clusterCount) else permutations)
    && r.pValue == FlipPValue(values, permutations, rng)
    && r.pValue >= (if r.exact then 2.0 / Pow2(r.clusterCount) as real else 1.0 / (permutations + 1) as real)
    && 0.0 < r.pValue <= 1.0
  }

  lemma {:induction false} FlipPValueInUnit(values: seq<Observation>, permutations: nat, rng: (nat, nat) -> bool)
    requires values != []
    ensures 0.0 <= FlipPValue(values, permutations, rng) <= 1.0
  {
    EstimateWithin(values);
    var groups := GroupsFor(NamesOf(values), values);
    ExactBounds(groups);
    PositiveShare(2.0, Pow2(|groups|));
    SampledBounds(groups, CoinDraws(permutations, |groups|, rng));
  }

  lemma {:induction false} SampledBounds(groups: Groups, draws: seq<Signs>)
    ensures 0.0 < SampledShare(groups, draws) <= 1.0
  {
    CountExtremes(Extreme(groups), draws);
    MonteCarloBounds(Count(Extreme(groups), draws), |draws|);
    PositiveShare(1.0, |draws| + 1);
  }

  /** `cluster_sign_flip_p_value`; rng(k, i) is the k-th draw's coin for the i-th cluster. */
  method ClusterSignFlip(values: seq<Observation>, permutations: int, rng: (nat, nat) -> bool)
    returns (result: Result<SignFlipResult, ResampleError>)
    ensures result.Err?
            <==> values == [] || permutations < 1 || exists k :: 0 <= k < |values| && values[k].cluster == ""
    ensures result.Ok? ==> DescribesFlips(result.value, values, permutations, rng)
  {
    if values == [] {
      return Err(NoValues);
    }
    if permutations < 1 {
      return Err(BadPermutations);
    }
    var grouped := GroupByCluster(values);
    if grouped.Err? {
      return Err(grouped.error);
    }
    var (names, groups) := grouped.value;
    var tested := FlipGroups(values, names, groups, permutations, rng);
    return Ok(tested);
  }

  /** The test itself, on the groups. */
  method FlipGroups(values: seq<Observation>, names: seq<string>, groups: Groups, permutations: int,
      rng: (nat, nat) -> bool)
    returns (result: SignFlipResult)
    requires values != [] && permutations >= 1 && names == NamesOf(values) && groups == GroupsFor(names, values)
    ensures DescribesFlips(result, values, permutations, rng)
  {
    EstimateWithin(values);
    var observedMean := Mean(Flatten(groups));
    if |names| <= EXACT_CLUSTERS {
      var p, tested, _ := ExactSignFlip(groups);
      result := SignFlipResult(observedMean, p, |names|, tested, true);
      ExactDescribes(values, permutations, rng, p);
    } else {
      var draws := CoinDraws(permutations, |names|, rng);
      var p, _ := MonteCarloSignFlip(groups, draws);
      assert p == FlipPValue(values, permutations, rng);
      result := SignFlipResult(observedMean, p, |names|, permutations, false);
      SampledDescribes(values, permutations, rng, p);
    }
  }

  lemma {:induction false} ExactDescribes(values: seq<Observation>, permutations: int, rng: (nat, nat) -> bool, p: real)
    requires permutations >= 1 && |NamesOf(values)| <= EXACT_CLUSTERS
    requires p == ExactShare(GroupsFor(NamesOf(values), values)) && 2.0 / Pow2(|NamesOf(values)|) as real <= p <= 1.0
    ensures DescribesFlips(SignFlipResult(GroupMean(values), p, |NamesOf(values)|, Pow2(|NamesOf(values)|), true),
                           values, permutations, rng)
  {
    GroupedMean(values);
    PositiveShare(2.0, Pow2(|NamesOf(values)|));
  }

  lemma {:induction false} SampledDescribes(values: seq<Observation>, permutations: int, rng: (nat, nat) -> bool,
      p: real)
    requires permutations >= 1 && |NamesOf(values)| > EXACT_CLUSTERS && 1.0 / (permutations + 1) as real <= p <= 1.0
    requires p == FlipPValue(values, permutations, rng)
    ensures DescribesFlips(SignFlipResult(GroupMean(values), p, |NamesOf(values)|, permutations, false), values,
                           permutations, rng)
  {
    GroupedMean(values);
    PositiveShare(1.0, permutations + 1);
  }

  /** The mean that the program computes, over the groups. */
  function GroupMean(values: seq<Observation>): real { Mean(Flatten(GroupsFor(NamesOf(values), values))) }

  lemma {:induction false} PositiveShare(a: real, n: nat)
    requires a > 0.0 && n >= 1
    ensures a / n as real > 0.0
  {
    QuotientBounds(a, n as real, 0.0);
  }

  // ----- Percentile bootstrap -----

  const ROUND_UP := 0.999999

  /** `(1 - confidence_level) / 2`. */
  function Tail(confidence: real): real { (1.0 - confidence) / 2.0 }

  /** `max(0, int(alpha * resamples))`; the product is not negative, so truncation is the floor. */
  function LowerIndex(confidence: real, resamples: nat): int {
    Max(0, (Tail(confidence) * resamples as real).Floor)
  }

  /** `min(resamples - 1, int((1 - alpha) * resamples + 0.999999) - 1)`. */
  function UpperIndex(confidence: real, resamples: nat): int {
    Min((((1.0 - Tail(confidence)) * resamples as real) + ROUND_UP).Floor - 1, resamples - 1)
  }

  function Min(a: int, b: int): int { if a <= b then a else b }

  /** Both percentile indices are in range and in order, and they keep the promised share of the draws. */
  lemma {:induction false} PercentileIndices(confidence: real, resamples: nat)
    requires 0.0 < confidence < 1.0 && resamples >= 1
    ensures 0 <= LowerIndex(confidence, resamples) <= UpperIndex(confidence, resamples) <= resamples - 1
    ensures (UpperIndex(confidence, resamples) - LowerIndex(confidence, resamples) + 1) as real
            >= confidence * resamples as real - (1.0 - ROUND_UP)
  {
    var r := resamples as real;
    TailProduct(confidence, r);
    TailShares(confidence, r);
    IndexBounds(Tail(confidence) * r, (1.0 - Tail(confidence)) * r, confidence * r, confidence, resamples);
  }

  lemma {:induction false} IndexBounds(a: real, b: real, c: real, confidence: real, resamples: nat)
    requires resamples >= 1 && a == Tail(confidence) * resamples as real
    requires b == (1.0 - Tail(confidence)) * resamples as real
    requires 0.0 < a < resamples as real / 2.0 && b == resamples as real - a && c == resamples as real - 2.0 * a
    ensures 0 <= LowerIndex(confidence, resamples) <= UpperIndex(confidence, resamples) <= resamples - 1
    ensures (UpperIndex(confidence, resamples) - LowerIndex(confidence, resamples) + 1) as real >= c - (1.0 - ROUND_UP)
  {
    IndexArithmetic(a, b, c, resamples);
  }

  lemma {:induction false} TailShares(confidence: real, r: real)
    ensures (1.0 - Tail(confidence)) * r == r - Tail(confidence) * r
    ensures confidence * r == r - 2.0 * (Tail(confidence) * r)
  {
    var t := Tail(confidence);
    assert confidence == 1.0 - 2.0 * t;
    assert (1.0 - t) * r == r - t * r;
    assert (1.0 - 2.0 * t) * r == r - 2.0 * (t * r);
  }

  lemma {:induction false} TailProduct(confidence: real, r: real)
    requires 0.0 < confidence < 1.0 && r >= 1.0
    ensures 0.0 < Tail(confidence) * r < r / 2.0
  {
    var t := Tail(confidence);
    assert 0.0 < t < 0.5;
    ProductPositive(t, r);
    ProductPositive(0.5 - t, r);
    assert (0.5 - t) * r == 0.5 * r - t * r;
  }

  lemma {:induction false} ProductPositive(a: real, b: real)
    requires a > 0.0 && b > 0.0
    ensures a * b > 0.0
  {
  }

  lemma {:induction false} IndexArithmetic(a: real, b: real, c: real, resamples: nat)
    requires resamples >= 1 && 0.0 < a < resamples as real / 2.0
    requires b == resamples as real - a && c == resamples as real - 2.0 * a
    ensures var lower, upper := Max(0, a.Floor), Min((b + ROUND_UP).Floor - 1, resamples - 1);
            && 0 <= lower <= upper <= resamples - 1
            && (upper - lower + 1) as real >= c - (1.0 - ROUND_UP)
  {
    var lower, upper := a.Floor, (b + ROUND_UP).Floor - 1;
    assert lower as real <= a < lower as real + 1.0;
    assert (upper + 1) as real <= b + ROUND_UP < (upper + 2) as real;
    assert 2.0 * lower as real <= 2.0 * a < resamples as real;
    assert 2 * lower < resamples;
  }

  predicate RealLe(a: real, b: real) { a <= b }

  lemma {:induction false} SumWithin(xs: seq<real>, lo: real, hi: real)
    requires Within(xs, lo, hi)
    ensures lo * |xs| as real <= Sum(xs) <= hi * |xs| as real
  {
    if xs != [] {
      SumWithin(xs[1..], lo, hi);
      assert lo * |xs| as real == lo + lo * |xs[1..]| as real;
      assert hi * |xs| as real == hi + hi * |xs[1..]| as real;
    }
  }

  lemma {:induction false} MeanWithin(xs: seq<real>, lo: real, hi: real)
    requires xs != [] && Within(xs, lo, hi)
    ensures lo <= Mean(xs) <= hi
  {
    SumWithin(xs, lo, hi);
    QuotientBounds(Sum(xs), |xs| as real, lo);
    QuotientBounds(Sum(xs), |xs| as real, hi);
  }

  lemma {:induction false} GroupWithin(values: seq<Observation>, name: string, lo: real, hi: real)
    requires Within(MapSeq(ValueOf, values), lo, hi)
    ensures Within(GroupOf(values, name), lo, hi)
  {
    if values != [] {
      var n := |values| - 1;
      assert MapSeq(ValueOf, values)[n] == values[n].value;
      assert forall k :: 0 <= k < n ==> MapSeq(ValueOf, values[..n])[k] == MapSeq(ValueOf, values)[k];
      GroupWithin(values[..n], name, lo, hi);
    }
  }

  lemma {:induction false} AppearingGroupNotEmpty(values: seq<Observation>, name: string)
    requires name in Appearances(values)
    ensures GroupOf(values, name) != []
  {
    var n := |values| - 1;
    if values[n].cluster != name {
      AppearingGroupNotEmpty(values[..n], name);
    }
  }

  lemma {:induction false} NamedGroups(values: seq<Observation>, lo: real, hi: real)
    requires Within(MapSeq(ValueOf, values), lo, hi)
    ensures var groups := GroupsFor(NamesOf(values), values);
            forall k :: 0 <= k < |groups| ==> groups[k] != [] && Within(groups[k], lo, hi)
  {
    SortPermutes(Appearances(values), StringLe);
    forall k | 0 <= k < |NamesOf(values)|
      ensures GroupOf(values, NamesOf(values)[k]) != [] && Within(GroupOf(values, NamesOf(values)[k]), lo, hi)
    {
      assert NamesOf(values)[k] in Appearances(values);
      AppearingGroupNotEmpty(values, NamesOf(values)[k]);
      GroupWithin(values, NamesOf(values)[k], lo, hi);
    }
  }

  datatype BootstrapCI = BootstrapCI(estimate: real, lower: Option<real>, upper: Option<real>, clusterCount: nat,
                                     adequate: bool)

  /** The first n clusters of one resample, drawn with replacement, each with all of its values. */
  function Sampled(groups: Groups, pick: nat -> nat, n: nat): seq<real>
    requires groups != []
  {
    if n == 0 then [] else Sampled(groups, pick, n - 1) + groups[pick(n - 1) % |groups|]
  }

  /** The cluster indices of the k-th resample. */
  function PicksOf(rng: (nat, nat) -> nat, k: nat): nat -> nat { (i: nat) => rng(k, i) }

  function DrawOf(groups: Groups, rng: (nat, nat) -> nat, k: nat): real
    requires groups != []
  {
    Mean(Sampled(groups, PicksOf(rng, k), |groups|))
  }

  function Draws(groups: Groups, rng: (nat, nat) -> nat, resamples: nat): seq<real>
    requires groups != []
  {
    seq(resamples, k requires 0 <= k < resamples => DrawOf(groups, rng, k))
  }

  method DrawMean(groups: Groups, rng: (nat, nat) -> nat, k: nat) returns (draw: real)
    requires groups != []
    ensures draw == DrawOf(groups, rng, k)
  {
    var sampled: seq<real> := [];
    for i := 0 to |groups|
      invariant sampled == Sampled(groups, PicksOf(rng, k), i)
    {
      sampled := sampled + groups[rng(k, i) % |groups|];
    }
    draw := Mean(sampled);
  }

  method DrawAll(groups: Groups, rng: (nat, nat) -> nat, resamples: nat) returns (draws: seq<real>)
    requires groups != []
    ensures draws == Draws(groups, rng, resamples)
  {
    draws := [];
    for k := 0 to resamples
      invariant |draws| == k && forall i :: 0 <= i < k ==> draws[i] == DrawOf(groups, rng, i)
    {
      var draw := DrawMean(groups, rng, k);
      draws := draws + [draw];
    }
  }

  /** The sums and the sizes of the clusters that the first n coins of one resample pick. */
  function PickedSum(groups: Groups, rng: (nat, nat) -> nat, k: nat, n: nat): real
    requires groups != []
  {
    if n == 0 then 0.0 else PickedSum(groups, rng, k, n - 1) + Sum(groups[rng(k, n - 1) % |groups|])
  }

  function PickedSize(groups: Groups, rng: (nat, nat) -> nat, k: nat, n: nat): nat
    requires groups != []
  {
    if n == 0 then 0 else PickedSize(groups, rng, k, n - 1) + |groups[rng(k, n - 1) % |groups|]|
  }

  lemma {:induction false} SampledTotals(groups: Groups, rng: (nat, nat) -> nat, k: nat, n: nat)
    requires groups != []
    ensures Sum(Sampled(groups, PicksOf(rng, k), n)) == PickedSum(groups, rng, k, n)
    ensures |Sampled(groups, PicksOf(rng, k), n)| == PickedSize(groups, rng, k, n)
  {
    if n > 0 {
      SampledTotals(groups, rng, k, n - 1);
      SumAppend(Sampled(groups, PicksOf(rng, k), n - 1), groups[rng(k, n - 1) % |groups|]);
    }
  }

  /** A draw is the mean over as many picked clusters as there are, every cluster with all of its values each time. */
  lemma {:induction false} DrawIsPickedMean(groups: Groups, rng: (nat, nat) -> nat, k: nat)
    requires groups != [] && forall i :: 0 <= i < |groups| ==> groups[i] != []
    ensures PickedSize(groups, rng, k, |groups|) >= |groups|
    ensures DrawOf(groups, rng, k) * PickedSize(groups, rng, k, |groups|) as real
            == PickedSum(groups, rng, k, |groups|)
  {
    SampledTotals(groups, rng, k, |groups|);
    PickedAtLeast(groups, rng, k, |groups|);
    QuotientTimes(PickedSum(groups, rng, k, |groups|), PickedSize(groups, rng, k, |groups|) as real);
  }

  lemma {:induction false} PickedAtLeast(groups: Groups, rng: (nat, nat) -> nat, k: nat, n: nat)
    requires groups != [] && forall i :: 0 <= i < |groups| ==> groups[i] != []
    ensures PickedSize(groups, rng, k, n) >= n
  {
    if n > 0 { PickedAtLeast(groups, rng, k, n - 1); }
  }

  lemma {:induction false} SampledWithin(groups: Groups, pick: nat -> nat, n: nat, lo: real, hi: real)
    requires groups != [] && forall k :: 0 <= k < |groups| ==> groups[k] != [] && Within(groups[k], lo, hi)
    ensures Within(Sampled(groups, pick, n), lo, hi)
    ensures n > 0 ==> Sampled(groups, pick, n) != []
  {
    if n > 0 { SampledWithin(groups, pick, n - 1, lo, hi); }
  }

  lemma {:induction false} DrawsWithin(groups: Groups, rng: (nat, nat) -> nat, resamples: nat, lo: real, hi: real)
    requires groups != [] && forall k :: 0 <= k < |groups| ==> groups[k] != [] && Within(groups[k], lo, hi)
    ensures Within(Draws(groups, rng, resamples), lo, hi)
  {
    forall k | 0 <= k < resamples ensures lo <= DrawOf(groups, rng, k) <= hi {
      SampledWithin(groups, PicksOf(rng, k), |groups|, lo, hi);
      MeanWithin(Sampled(groups, PicksOf(rng, k), |groups|), lo, hi);
    }
  }

  function Between(lower: real, upper: real): real -> bool { x => lower <= x <= upper }

  /** A slice of an ascending list lies between its ends, so the ends enclose at least that many values. */
  lemma {:induction false} EnclosedCount(draws: seq<real>, i: nat, j: nat)
    requires i <= j < |draws|
    ensures var sorted := Sort(draws, RealLe);
            |sorted| == |draws| && sorted[i] <= sorted[j] && Count(Between(sorted[i], sorted[j]), draws) >= j - i + 1
  {
    var sorted := Sort(draws, RealLe);
    SortPermutes(draws, RealLe);
    SortOrdered(draws, RealLe);
    SliceCount(sorted, i, j);
    CountForgetsOrder(Between(sorted[i], sorted[j]), draws, sorted);
  }

  lemma {:induction false} SliceCount(sorted: seq<real>, i: nat, j: nat)
    requires i <= j < |sorted| && Ordered(sorted, RealLe)
    ensures sorted[i] <= sorted[j] && Count(Between(sorted[i], sorted[j]), sorted) >= j - i + 1
  {
    var inside := Between(sorted[i], sorted[j]);
    assert i == j || RealLe(sorted[i], sorted[j]);
    forall k | i <= k <= j ensures inside(sorted[k]) {
      assert k == i || RealLe(sorted[i], sorted[k]);
      assert k == j || RealLe(sorted[k], sorted[j]);
    }
    SliceFull(inside, sorted, i, j + 1);
  }

  lemma {:induction false} SliceFull(f: real -> bool, s: seq<real>, i: nat, j: nat)
    requires i <= j <= |s| && forall k :: i <= k < j ==> f(s[k])
    ensures Count(f, s) >= j - i
  {
    assert s == s[..i] + s[i..j] + s[j..];
    CountAppend(f, s[..i] + s[i..j], s[j..]);
    CountAppend(f, s[..i], s[i..j]);
    CountFull(f, s[i..j]);
  }

  function Below(x: real): real -> bool { y => y < x }

  function UpTo(x: real): real -> bool { y => y <= x }

  /** x is the draw at this position, counting the draws from 0 in ascending order. */
  ghost predicate AtRank(x: real, draws: seq<real>, position: real) {
    x in draws && Count(Below(x), draws) as real <= position < Count(UpTo(x), draws) as real
  }

  /** The draws at positions a * n and (1 - a) * n, the second rounded up with a millionth to spare. */
  ghost predicate Percentiles(lower: real, upper: real, draws: seq<real>, a: real, n: real) {
    AtRank(lower, draws, a * n) && AtRank(upper, draws, (1.0 - a) * n - 0.000001)
  }

  /** The interval that leaves (1 - confidence) / 2 of the draws outside on each side. */
  ghost predicate IntervalOf(lower: real, upper: real, draws: seq<real>, confidence: real) {
    Percentiles(lower, upper, draws, (1.0 - confidence) / 2.0, |draws| as real)
  }

  /** Which values an ascending list has at a position. */
  lemma {:induction false} SortedRank(sorted: seq<real>, i: nat)
    requires i < |sorted| && Ordered(sorted, RealLe)
    ensures Count(Below(sorted[i]), sorted) <= i < Count(UpTo(sorted[i]), sorted)
  {
    var before, after, x := sorted[..i], sorted[i..], sorted[i];
    assert sorted == before + after;
    CountAppend(Below(x), before, after);
    CountAppend(UpTo(x), before, after);
    forall k | 0 <= k < |after| ensures !Below(x)(after[k]) {
      assert k == 0 || RealLe(sorted[i], sorted[i + k]);
    }
    forall k | 0 <= k < i ensures UpTo(x)(before[k]) {
      assert RealLe(sorted[k], sorted[i]);
    }
    CountEmpty(Below(x), after);
    CountExtremes(Below(x), before);
    CountFull(UpTo(x), before);
    CountPositive(UpTo(x), after, after[0]);
  }

  lemma {:induction false} DrawAtRank(draws: seq<real>, i: nat, position: real)
    requires i < |draws| && i as real <= position < (i + 1) as real
    ensures |Sort(draws, RealLe)| == |draws| && AtRank(Sort(draws, RealLe)[i], draws, position)
  {
    var sorted := Sort(draws, RealLe);
    SortPermutes(draws, RealLe);
    SortOrdered(draws, RealLe);
    SortedRank(sorted, i);
    CountForgetsOrder(Below(sorted[i]), draws, sorted);
    CountForgetsOrder(UpTo(sorted[i]), draws, sorted);
    assert sorted[i] in sorted;
  }

  /** No two values are at one position. */
  lemma {:induction false} RankIsUnique(x: real, y: real, draws: seq<real>, position: real)
    requires AtRank(x, draws, position) && AtRank(y, draws, position)
    ensures x == y
  {
    if x < y {
      CountImplies(UpTo(x), Below(y), draws);
    } else if y < x {
      CountImplies(UpTo(y), Below(x), draws);
    }
  }

  /** The two index formulas read the draws at those positions. */
  lemma {:induction false} IndexPositions(confidence: real, resamples: nat, low: real, high: real)
    requires 0.0 < confidence < 1.0 && resamples >= 1
    requires low == Tail(confidence) * resamples as real && high == (1.0 - Tail(confidence)) * resamples as real
    ensures LowerIndex(confidence, resamples) as real <= low < (LowerIndex(confidence, resamples) + 1) as real
    ensures UpperIndex(confidence, resamples) as real <= high - 0.000001
            < (UpperIndex(confidence, resamples) + 1) as real
  {
    TailProduct(confidence, resamples as real);
    TailShares(confidence, resamples as real);
    IndexFloor(confidence, low, high, resamples);
  }

  lemma {:induction false} IndexFloor(confidence: real, a: real, b: real, resamples: nat)
    requires resamples >= 1 && 0.0 < a < resamples as real / 2.0 && b == resamples as real - a
    requires a == Tail(confidence) * resamples as real && b == (1.0 - Tail(confidence)) * resamples as real
    ensures LowerIndex(confidence, resamples) as real <= a < (LowerIndex(confidence, resamples) + 1) as real
    ensures UpperIndex(confidence, resamples) as real <= b - 0.000001 < (UpperIndex(confidence, resamples) + 1) as real
  {
    PositionFloor(a, b, resamples);
  }

  lemma {:induction false} PositionFloor(a: real, b: real, resamples: nat)
    requires resamples >= 1 && 0.0 < a < resamples as real / 2.0 && b == resamples as real - a
    ensures var lower, upper := Max(0, a.Floor), Min((b + ROUND_UP).Floor - 1, resamples - 1);
            && lower as real <= a < (lower + 1) as real
            && upper as real <= b - 0.000001 < (upper + 1) as real
  {
    var upper := (b + ROUND_UP).Floor - 1;
    assert (upper + 1) as real <= b + ROUND_UP < (upper + 2) as real;
    assert upper < resamples;
  }

  /** Sort the draws and read the two percentile positions; the interval keeps the promised share of the draws. */
  method PercentileInterval(draws: seq<real>, confidence: real, resamples: nat) returns (lower: real, upper: real)
    requires 0.0 < confidence < 1.0 && resamples >= 1 && |draws| == resamples
    ensures lower <= upper && lower in draws && upper in draws
    ensures Count(Between(lower, upper), draws) as real >= confidence * resamples as real - (1.0 - ROUND_UP)
    ensures IntervalOf(lower, upper, draws, confidence)
  {
    var sorted := Sort(draws, RealLe);
    SortPermutes(draws, RealLe);
    PercentileIndices(confidence, resamples);
    lower := sorted[LowerIndex(confidence, resamples)];
    upper := sorted[UpperIndex(confidence, resamples)];
    EnclosedCount(draws, LowerIndex(confidence, resamples), UpperIndex(confidence, resamples));
    SortedInterval(draws, confidence);
  }

  /** The draws at the two indices are the interval. */
  lemma {:induction false} SortedInterval(draws: seq<real>, confidence: real)
    requires 0.0 < confidence < 1.0 && draws != []
    ensures |Sort(draws, RealLe)| == |draws|
    ensures 0 <= LowerIndex(confidence, |draws|) <= UpperIndex(confidence, |draws|) < |draws|
    ensures IntervalOf(Sort(draws, RealLe)[LowerIndex(confidence, |draws|)],
                       Sort(draws, RealLe)[UpperIndex(confidence, |draws|)], draws, confidence)
  {
    PercentileIndices(confidence, |draws|);
    IntervalAt(draws, confidence, (1.0 - confidence) / 2.0, |draws| as real, LowerIndex(confidence, |draws|),
               UpperIndex(confidence, |draws|));
  }

  lemma {:induction false} IntervalAt(draws: seq<real>, confidence: real, a: real, n: real, lower: nat, upper: nat)
    requires 0.0 < confidence < 1.0 && draws != [] && a == Tail(confidence) && n == |draws| as real
    requires lower == LowerIndex(confidence, |draws|) && upper == UpperIndex(confidence, |draws|)
    requires lower < |draws| && upper < |draws|
    ensures |Sort(draws, RealLe)| == |draws|
    ensures Percentiles(Sort(draws, RealLe)[lower], Sort(draws, RealLe)[upper], draws, a, n)
  {
    IndexPositions(confidence, |draws|, a * n, (1.0 - a) * n);
    SortedPercentiles(draws, a, n, lower, upper);
  }

  lemma {:induction false} SortedPercentiles(draws: seq<real>, a: real, n: real, lower: nat, upper: nat)
    requires lower < |draws| && upper < |draws|
    requires lower as real <= a * n < (lower + 1) as real
    requires upper as real <= (1.0 - a) * n - 0.000001 < (upper + 1) as real
    ensures |Sort(draws, RealLe)| == |draws|
    ensures Percentiles(Sort(draws, RealLe)[lower], Sort(draws, RealLe)[upper], draws, a, n)
  {
    DrawAtRank(draws, lower, a * n);
    DrawAtRank(draws, upper, (1.0 - a) * n - 0.000001);
  }

  lemma {:induction false} PercentilesAreUnique(draws: seq<real>, a: real, n: real, lower: real, upper: real, low: real,
      high: real)
    requires Percentiles(lower, upper, draws, a, n) && Percentiles(low, high, draws, a, n)
    ensures lower == low && upper == high
  {
    RankIsUnique(lower, low, draws, a * n);
    RankIsUnique(upper, high, draws, (1.0 - a) * n - 0.000001);
  }

  lemma {:induction false} IntervalIsUnique(draws: seq<real>, confidence: real, lower: real, upper: real, low: real,
      high: real)
    requires IntervalOf(lower, upper, draws, confidence) && IntervalOf(low, high, draws, confidence)
    ensures lower == low && upper == high
  {
    var a, n := (1.0 - confidence) / 2.0, |draws| as real;
    PercentilesAreUnique(draws, a, n, lower, upper, low, high);
  }

  method BootstrapInterval(names: seq<string>, groups: Groups, confidence: real, resamples: nat,
      rng: (nat, nat) -> nat, ghost values: seq<Observation>)
    returns (lower: real, upper: real)
    requires 0.0 < confidence < 1.0 && resamples >= 1 && values != []
    requires names == NamesOf(values) && groups == GroupsFor(names, values) && groups != []
    ensures IntervalOf(lower, upper, Draws(groups, rng, resamples), confidence)
    ensures Least(MapSeq(ValueOf, values)) <= lower <= upper <= Greatest(MapSeq(ValueOf, values))
  {
    ghost var lo, hi := Least(MapSeq(ValueOf, values)), Greatest(MapSeq(ValueOf, values));
    LeastGreatestBound(MapSeq(ValueOf, values));
    var draws := DrawAll(groups, rng, resamples);
    NamedGroups(values, lo, hi);
    DrawsWithin(groups, rng, resamples, lo, hi);
    lower, upper := PercentileInterval(draws, confidence, resamples);
  }

  /** What a bootstrap result says about its observations. */
  ghost predicate DescribesBootstrap(r: BootstrapCI, values: seq<Observation>, confidence: real, resamples: nat,
      minimumClusters: int, rng: (nat, nat) -> nat)
    requires values != []
  {
    var plain := MapSeq(ValueOf, values);
    var groups := GroupsFor(NamesOf(values), values);
    && r.estimate == Mean(plain) && Least(plain) <= r.estimate <= Greatest(plain)
    && r.clusterCount == |NamesOf(values)| > 0
    && (r.adequate <==> r.clusterCount >= minimumClusters)
    && (!r.adequate ==> r.lower == None && r.upper == None)
    && (r.adequate ==> r.lower.Some? && r.upper.Some?
                       && IntervalOf(r.lower.value, r.upper.value, Draws(groups, rng, resamples), confidence)
                       && Least(plain) <= r.lower.value <= r.upper.value <= Greatest(plain))
  }

  lemma {:induction false} EstimateWithin(values: seq<Observation>)
    requires values != []
    ensures Least(MapSeq(ValueOf, values)) <= Mean(MapSeq(ValueOf, values)) <= Greatest(MapSeq(ValueOf, values))
    ensures NamesOf(values) != []
  {
    var plain := MapSeq(ValueOf, values);
    LeastGreatestBound(plain);
    MeanWithin(plain, Least(plain), Greatest(plain));
    NamesCover(values);
  }

  /** `task_cluster_bootstrap_ci`; rng(k, i) is the i-th cluster index of the k-th resample. */
  method TaskClusterBootstrapCI(values: seq<Observation>, confidence: real, resamples: int, minimumClusters: int,
      rng: (nat, nat) -> nat)
    returns (result: Result<BootstrapCI, ResampleError>)
    ensures result.Err?
            <==> || values == [] || !(0.0 < confidence < 1.0) || resamples < 1 || minimumClusters < 2
                 || exists k :: 0 <= k < |values| && values[k].cluster == ""
    ensures result.Ok? ==> DescribesBootstrap(result.value, values, confidence, resamples, minimumClusters, rng)
  {
    if values == [] { return Err(NoValues); }
    if !(0.0 < confidence < 1.0) { return Err(BadConfidence); }
    if resamples < 1 { return Err(BadResamples); }
    if minimumClusters < 2 { return Err(BadMinimumClusters); }
    var grouped := GroupByCluster(values);
    if grouped.Err? { return Err(grouped.error); }
    var (names, groups) := grouped.value;
    EstimateWithin(values);
    var estimate := Mean(MapSeq(ValueOf, values));
    if |names| < minimumClusters {
      return Ok(BootstrapCI(estimate, None, None, |names|, false));
    }
    var lower, upper := BootstrapInterval(names, groups, confidence, resamples, rng, values);
    return Ok(BootstrapCI(estimate, Some(lower), Some(upper), |names|, true));
  }
}
