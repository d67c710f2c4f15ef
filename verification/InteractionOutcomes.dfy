/** Interaction reports in terms of the four attempts of each pair and the outcomes they recorded. */
module InteractionOutcomes {
  import opened Prelude
  import opened Sorting
  import opened SignFlip
  import opened EffectPairing
  import opened EffectReports
  import opened EffectFamily
  import opened InteractionFamily
  import O = EffectOutcomes
  import R = Resampling

  datatype Cell = Cell(attempt: AttemptRecord, score: real)

  /** The four cells of one pair: no treatment, only the first, only the second, both. */
  datatype Quad = Quad(neither: Cell, onlyA: Cell, onlyB: Cell, both: Cell)

  predicate CellIs(c: Cell, records: seq<AttemptRecord>, s: InteractionSpec, a: Level, b: Level) {
    && c.attempt in records && O.HasLevel(c.attempt, s.factorA, a) && O.HasLevel(c.attempt, s.factorB, b)
    && O.Scores(c.attempt, s.outcome, c.score)
  }

  predicate QuadIs(q: Quad, records: seq<AttemptRecord>, s: InteractionSpec) {
    && CellIs(q.neither, records, s, s.controlA, s.controlB) && CellIs(q.onlyA, records, s, s.treatmentA, s.controlB)
    && CellIs(q.onlyB, records, s, s.controlA, s.treatmentB) && CellIs(q.both, records, s, s.treatmentA, s.treatmentB)
    && O.Alike(q.neither.attempt, q.onlyA.attempt, [s.factorA, s.factorB])
    && O.Alike(q.neither.attempt, q.onlyB.attempt, [s.factorA, s.factorB])
    && O.Alike(q.neither.attempt, q.both.attempt, [s.factorA, s.factorB])
  }

  /** How much more the first treatment gains when the second is present than when it is not. */
  predicate QuadMatches(q: Quad, value: R.Observation, records: seq<AttemptRecord>, s: InteractionSpec) {
    && QuadIs(q, records, s) && value.cluster == q.neither.attempt.taskClusterId
    && value.value == (q.both.score - q.onlyB.score) - (q.onlyA.score - q.neither.score)
  }

  ghost predicate QuadsMatch(quads: seq<Quad>, values: seq<R.Observation>, records: seq<AttemptRecord>,
      s: InteractionSpec) {
    |quads| <= |values| && forall k :: 0 <= k < |quads| ==> QuadMatches(quads[k], values[k], records, s)
  }

  lemma {:induction false} TwoLevels(r: AttemptRecord, s: InteractionSpec, a: Level, b: Level)
    requires CellOf(r, [s.factorA, s.factorB]) == Some([a, b])
    ensures O.HasLevel(r, s.factorA, a) && O.HasLevel(r, s.factorB, b)
  {
    O.CellHasLevels(r, [s.factorA, s.factorB], [a, b], 0);
    O.CellHasLevels(r, [s.factorA, s.factorB], [a, b], 1);
  }

  lemma {:induction false} CellIn(group: seq<AttemptRecord>, s: InteractionSpec, needed: set<Levels>, a: Level,
      b: Level)
    returns (c: Cell)
    requires Complete(group, [s.factorA, s.factorB], needed) && [a, b] in needed
    requires ValueAt(group, [s.factorA, s.factorB], [a, b], s.outcome).Some?
    ensures c.attempt in group && CellOf(c.attempt, [s.factorA, s.factorB]) == Some([a, b])
    ensures O.Scores(c.attempt, s.outcome, c.score)
    ensures ValueAt(group, [s.factorA, s.factorB], [a, b], s.outcome) == Some(c.score)
  {
    var ids := [s.factorA, s.factorB];
    O.ValueAtIs(group, ids, needed, [a, b], s.outcome);
    c := Cell(RecordAt(group, ids, [a, b]).value, ValueAt(group, ids, [a, b], s.outcome).value);
  }

  lemma {:induction false} CellAt(p: Pair, records: seq<AttemptRecord>, s: InteractionSpec, needed: set<Levels>,
      a: Level, b: Level)
    returns (c: Cell)
    requires O.AlikeGroup(p, records, [s.factorA, s.factorB], needed) && [a, b] in needed
    requires ValueAt(p.group, [s.factorA, s.factorB], [a, b], s.outcome).Some?
    ensures CellIs(c, records, s, a, b) && c.attempt in p.group
    ensures ValueAt(p.group, [s.factorA, s.factorB], [a, b], s.outcome) == Some(c.score)
  {
    c := CellIn(p.group, s, needed, a, b);
    TwoLevels(c.attempt, s, a, b);
  }

  lemma {:induction false} QuadAt(p: Pair, records: seq<AttemptRecord>, s: InteractionSpec) returns (q: Quad)
    requires O.AlikeGroup(p, records, [s.factorA, s.factorB], InteractionNeeded(s))
    requires InteractionDifference(s)(p).Some?
    ensures QuadMatches(q, R.Observation(p.cluster, InteractionDifference(s)(p).value), records, s)
  {
    var needed := InteractionNeeded(s);
    var neither := CellAt(p, records, s, needed, s.controlA, s.controlB);
    var onlyA := CellAt(p, records, s, needed, s.treatmentA, s.controlB);
    var onlyB := CellAt(p, records, s, needed, s.controlA, s.treatmentB);
    var both := CellAt(p, records, s, needed, s.treatmentA, s.treatmentB);
    q := Quad(neither, onlyA, onlyB, both);
  }

  lemma {:induction false} QuadsSnoc(quads: seq<Quad>, q: Quad, values: seq<R.Observation>,
      records: seq<AttemptRecord>, s: InteractionSpec)
    requires QuadsMatch(quads, values, records, s) && |quads| < |values|
    requires QuadMatches(q, values[|quads|], records, s)
    ensures QuadsMatch(quads + [q], values, records, s)
  {
  }

  lemma {:induction false} QuadFor(pairs: seq<Pair>, values: seq<R.Observation>, records: seq<AttemptRecord>,
      s: InteractionSpec, k: nat)
    returns (q: Quad)
    requires k < |pairs| == |values| && O.AlikeGroup(pairs[k], records, [s.factorA, s.factorB], InteractionNeeded(s))
    requires Contrast(pairs, InteractionDifference(s)) == Some(values)
    ensures QuadMatches(q, values[k], records, s)
  {
    O.ContrastAt(pairs, InteractionDifference(s), values, k);
    q := QuadAt(pairs[k], records, s);
  }

  lemma {:induction false} QuadsOf(pairs: seq<Pair>, values: seq<R.Observation>, records: seq<AttemptRecord>,
      s: InteractionSpec, n: nat)
    returns (quads: seq<Quad>)
    requires O.AlikeGroups(pairs, records, [s.factorA, s.factorB], InteractionNeeded(s))
    requires Contrast(pairs, InteractionDifference(s)) == Some(values) && n <= |pairs| == |values|
    ensures |quads| == n && QuadsMatch(quads, values, records, s)
  {
    quads := [];
    if n > 0 {
      var before := QuadsOf(pairs, values, records, s, n - 1);
      var q := QuadFor(pairs, values, records, s, n - 1);
      QuadsSnoc(before, q, values, records, s);
      quads := before + [q];
    }
  }

  lemma {:induction false} ContrastOf(records: seq<AttemptRecord>, s: InteractionSpec, render: Key -> string,
      values: seq<R.Observation>)
    returns (pairs: seq<Pair>)
    requires InteractionEffect(records, s, render) == Ok(values)
    ensures O.AlikeGroups(pairs, records, [s.factorA, s.factorB], InteractionNeeded(s))
    ensures Contrast(pairs, InteractionDifference(s)) == Some(values) && |pairs| == |values|
  {
    pairs := PairRecords(records, [s.factorA, s.factorB], InteractionNeeded(s), render).value;
    O.PairsAreAlike(records, [s.factorA, s.factorB], InteractionNeeded(s), render, pairs);
    O.ContrastSize(pairs, InteractionDifference(s), values);
  }

  /** Each clustered value of an interaction is the difference of differences of four alike attempts. */
  lemma {:induction false} InteractionFromOutcomes(records: seq<AttemptRecord>, s: InteractionSpec,
      render: Key -> string, values: seq<R.Observation>)
    returns (quads: seq<Quad>)
    requires InteractionEffect(records, s, render) == Ok(values)
    ensures |quads| == |values| && QuadsMatch(quads, values, records, s)
  {
    var pairs := ContrastOf(records, s, render, values);
    quads := QuadsOf(pairs, values, records, s, |pairs|);
  }

  /** When an interaction is reported at all, held or not. */
  lemma {:induction false} InteractionRunsExactly(records: seq<AttemptRecord>, s: Interaction, setting: Setting)
    ensures Runs(records, s, setting)
            <==> && InteractionEffect(records, s.spec, setting.render).Ok?
                 && InteractionEffect(records, s.spec, setting.render).value != []
                 && (forall o :: o in InteractionEffect(records, s.spec, setting.render).value ==> o.cluster != "")
                 && 0.0 < setting.options.confidence < 1.0 && setting.options.resamples >= 1
                 && (setting.options.minimumClusters >= 2 || s.minimumClusters >= 2)
  {
    if InteractionEffect(records, s.spec, setting.render).Ok? {
      var values := InteractionEffect(records, s.spec, setting.render).value;
      assert R.Blank(values) <==> exists o :: o in values && o.cluster == "";
    }
  }

  /** When an interaction is held, and what it says otherwise. */
  lemma {:induction false} InteractionHeldExactly(records: seq<AttemptRecord>, s: Interaction, setting: Setting,
      values: seq<R.Observation>)
    requires Runs(records, s, setting) && InteractionEffect(records, s.spec, setting.render) == Ok(values)
    ensures var report, options := ReportFor(records, setting)(s), setting.options;
            && report.effectivePairs == |values| && report.clusterCount == |R.NamesOf(values)|
            && (report.result.None? <==>
                  || |values| < s.minimumPairs || |R.NamesOf(values)| < s.minimumClusters
                  || |R.NamesOf(values)| < options.minimumClusters)
            && (report.result.Some? ==> EstimatesAre(report.result.value, values, options, setting.draws))
  {
    if Enough(values, s, setting.options) { EstimatesHold(values, setting.options, setting.draws); }
  }

  /** The estimates of an interaction, by what they mean. */
  ghost predicate EstimatesAre(e: Estimates, values: seq<R.Observation>, options: Options, draws: Draws) {
    && options.resamples >= 1 && R.NamesOf(values) != []
    && e.mean == Mean(MapSeq(R.ValueOf, values))
    && R.IntervalOf(e.lower, e.upper, R.Draws(R.GroupsFor(R.NamesOf(values), values), draws.index, options.resamples),
                    options.confidence)
    && e.pValue == R.FlipPValue(values, options.resamples, draws.coin)
  }

  lemma {:induction false} EstimatesHold(values: seq<R.Observation>, options: Options, draws: Draws)
    requires values != [] && 0.0 < options.confidence < 1.0 && options.resamples >= 1
    ensures EstimatesAre(EstimatesOf(values, options, draws), values, options, draws)
  {
    R.EstimateWithin(values);
    R.SortedInterval(R.Draws(R.GroupsFor(R.NamesOf(values), values), draws.index, options.resamples),
                     options.confidence);
  }
}
