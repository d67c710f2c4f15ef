/** The registered family of interactions: held or estimated one by one, and corrected over the estimated ones. */
module InteractionFamily {
  import opened Prelude
  import opened Sorting
  import opened SignFlip
  import opened EffectPairing
  import opened EffectReports
  import opened EffectFamily
  import R = Resampling
  import MultipleTesting
  import MultipleTestingLaws

  datatype Interaction = Interaction(id: string, spec: InteractionSpec, minimumPairs: nat, minimumClusters: nat)

  datatype Estimates = Estimates(mean: real, lower: real, upper: real, pValue: real)

  /** result is None when the interaction is held. */
  datatype InteractionReport = InteractionReport(clusterCount: nat, effectivePairs: nat, result: Option<Estimates>)

  datatype InteractionRow = InteractionRow(id: string, report: InteractionReport, adjusted: Option<real>,
                                           rejected: Option<bool>)

  // ----- One interaction -----

  function ValuesOf(records: seq<AttemptRecord>, s: Interaction, setting: Setting)
    : Result<seq<R.Observation>, PairError> {
    InteractionEffect(records, s.spec, setting.render)
  }

  function NeededClusters(s: Interaction, options: Options): int { Max(options.minimumClusters, s.minimumClusters) }

  /** `_interaction` returns on these values, held or not. */
  predicate Resamplable(values: seq<R.Observation>, s: Interaction, options: Options) {
    && values != [] && !R.Blank(values)
    && 0.0 < options.confidence < 1.0 && options.resamples >= 1 && NeededClusters(s, options) >= 2
  }

  predicate Runs(records: seq<AttemptRecord>, s: Interaction, setting: Setting) {
    ValuesOf(records, s, setting).Ok? && Resamplable(ValuesOf(records, s, setting).value, s, setting.options)
  }

  /** Enough pairs and clusters to be estimated. */
  predicate Enough(values: seq<R.Observation>, s: Interaction, options: Options) {
    |values| >= s.minimumPairs && |R.NamesOf(values)| >= NeededClusters(s, options)
  }

  function EstimatesOf(values: seq<R.Observation>, options: Options, draws: Draws): Estimates
    requires values != [] && 0.0 < options.confidence < 1.0 && options.resamples >= 1
  {
    R.EstimateWithin(values);
    R.PercentileIndices(options.confidence, options.resamples);
    var sample := R.Draws(R.GroupsFor(R.NamesOf(values), values), draws.index, options.resamples);
    SortPermutes(sample, R.RealLe);
    var sorted := Sort(sample, R.RealLe);
    Estimates(Mean(MapSeq(R.ValueOf, values)),
              sorted[R.LowerIndex(options.confidence, options.resamples)],
                sorted[R.UpperIndex(options.confidence, options.resamples)],
              R.FlipPValue(values, options.resamples, draws.coin))
  }

  /** The bootstrap interval of an estimated interaction is the one its sorted draws hold. */
  lemma {:induction false} EstimatedInterval(values: seq<R.Observation>, options: Options, draws: Draws, lower: real,
      upper: real)
    requires values != [] && 0.0 < options.confidence < 1.0 && options.resamples >= 1 && R.NamesOf(values) != []
    requires R.IntervalOf(lower, upper,
                          R.Draws(R.GroupsFor(R.NamesOf(values), values), draws.index, options.resamples),
                          options.confidence)
    ensures EstimatesOf(values, options, draws).lower == lower && EstimatesOf(values, options, draws).upper == upper
  {
    var sample := R.Draws(R.GroupsFor(R.NamesOf(values), values), draws.index, options.resamples);
    R.PercentileIndices(options.confidence, options.resamples);
    SortedEnds(sample, options.confidence, lower, upper);
  }

  lemma {:induction false} SortedEnds(sample: seq<real>, confidence: real, lower: real, upper: real)
    requires sample != [] && 0.0 < confidence < 1.0 && R.IntervalOf(lower, upper, sample, confidence)
    ensures var sorted, n := Sort(sample, R.RealLe), |sample|;
            && |sorted| == n && 0 <= R.LowerIndex(confidence, n) <= R.UpperIndex(confidence, n) < n
            && lower == sorted[R.LowerIndex(confidence, n)] && upper == sorted[R.UpperIndex(confidence, n)]
  {
    R.SortedInterval(sample, confidence);
    R.IntervalIsUnique(sample, confidence, lower, upper, Sort(sample, R.RealLe)[R.LowerIndex(confidence, |sample|)],
                       Sort(sample, R.RealLe)[R.UpperIndex(confidence, |sample|)]);
  }

  function ReportOn(values: seq<R.Observation>, s: Interaction, setting: Setting): InteractionReport
    requires Resamplable(values, s, setting.options)
  {
    InteractionReport(|R.NamesOf(values)|, |values|,
                      if Enough(values, s, setting.options)
                        then Some(EstimatesOf(values, setting.options, setting.draws)) else None)
  }

  /** The loop of `_interaction` over the pairs. */
  method CollectContrasts(pairs: seq<Pair>, s: InteractionSpec) returns (complete: bool, values: seq<R.Observation>)
    ensures Contrast(pairs, InteractionDifference(s)) == if complete then Some(values) else None
  {
    values := [];
    var f := InteractionDifference(s);
    assert pairs[..0] == [];
    for k := 0 to |pairs|
      invariant Contrast(pairs[..k], f) == Some(values)
    {
      assert pairs[..k + 1][..k] == pairs[..k];
      var difference := f(pairs[k]);
      if difference.None? {
        ContrastNeedsAll(pairs, f, k);
        return false, values;
      }
      values := values + [R.Observation(pairs[k].cluster, difference.value)];
    }
    assert pairs[..|pairs|] == pairs;
    complete := true;
  }

  method Estimate(values: seq<R.Observation>, s: Interaction, setting: Setting)
    returns (report: Result<InteractionReport, EffectError>)
    ensures report.Ok? <==> Resamplable(values, s, setting.options)
    ensures report.Ok? ==> report.value == ReportOn(values, s, setting)
  {
    var options := setting.options;
    var bootstrap := R.TaskClusterBootstrapCI(values, options.confidence, options.resamples,
                                              NeededClusters(s, options), setting.draws.index);
    if bootstrap.Err? {
      return Err(Resample(bootstrap.error));
    }
    var gated := |values| >= s.minimumPairs && bootstrap.value.clusterCount >= s.minimumClusters;
    if !(gated && bootstrap.value.adequate) {
      return Ok(InteractionReport(bootstrap.value.clusterCount, |values|, None));
    }
    EstimatedInterval(values, options, setting.draws, bootstrap.value.lower.value, bootstrap.value.upper.value);
    var flips := R.ClusterSignFlip(values, options.resamples, setting.draws.coin);
    var estimates := Estimates(bootstrap.value.estimate, bootstrap.value.lower.value, bootstrap.value.upper.value,
                               flips.value.pValue);
    return Ok(InteractionReport(bootstrap.value.clusterCount, |values|, Some(estimates)));
  }

  /** `_interaction`. */
  method ReportInteraction(records: seq<AttemptRecord>, s: Interaction, setting: Setting)
    returns (report: Result<InteractionReport, EffectError>)
    ensures report.Ok? <==> Runs(records, s, setting)
    ensures report.Ok? ==> report.value == ReportOn(ValuesOf(records, s, setting).value, s, setting)
  {
    var pairs := ComputePairs(records, [s.spec.factorA, s.spec.factorB], InteractionNeeded(s.spec), setting.render);
    if pairs.Err? {
      return Err(Pairing(pairs.error));
    }
    var complete, values := CollectContrasts(pairs.value, s.spec);
    if !complete {
      return Err(Pairing(MissingOutcome));
    }
    report := Estimate(values, s, setting);
  }

  // ----- The family -----

  predicate ById(a: Interaction, b: Interaction) { StringLe(a.id, b.id) }

  function IdOf(s: Interaction): string { s.id }

  /** The report of each interaction that runs. */
  function ReportFor(records: seq<AttemptRecord>, setting: Setting): Interaction -> InteractionReport {
    (s: Interaction) =>
      if Runs(records, s, setting) then ReportOn(ValuesOf(records, s, setting).value, s, setting)
        else InteractionReport(0, 0, None)
  }

  function IsEstimated(): InteractionReport -> bool { (r: InteractionReport) => r.result.Some? }

  function PValueOf(r: InteractionReport): real { if r.result.Some? then r.result.value.pValue else 0.0 }

  /** The p-values of the estimated reports. */
  function Raws(reports: seq<InteractionReport>): seq<real> { MapSeq(PValueOf, Keep(IsEstimated(), reports)) }

  /** A row before the correction. */
  function Uncorrected(s: Interaction, report: InteractionReport)
    : InteractionRow { InteractionRow(s.id, report, None, None) }

  /** An estimated row has the adjusted value of its own p-value among raws; a held row has none. */
  function RowFor(s: Interaction, report: InteractionReport, raws: seq<real>): InteractionRow {
    if report.result.None? then Uncorrected(s, report)
    else
      var adjusted := MultipleTesting.BhAt(raws, PValueOf(report));
      InteractionRow(s.id, report, Some(adjusted), Some(adjusted <= 0.05))
  }

  function RowWith(records: seq<AttemptRecord>, setting: Setting, raws: seq<real>): Interaction -> InteractionRow {
    (s: Interaction) => RowFor(s, ReportFor(records, setting)(s), raws)
  }

  function RawsOf(records: seq<AttemptRecord>, specs: seq<Interaction>, setting: Setting): seq<real> {
    Raws(MapSeq(ReportFor(records, setting), specs))
  }

  /** `_interaction_reports`, when every interaction runs. */
  function Family(records: seq<AttemptRecord>, specs: seq<Interaction>, setting: Setting): seq<InteractionRow> {
    var ordered := Sort(specs, ById);
    MapSeq(RowWith(records, setting, RawsOf(records, ordered, setting)), ordered)
  }

  method ReportAll(records: seq<AttemptRecord>, ordered: seq<Interaction>, setting: Setting)
    returns (result: Result<seq<InteractionReport>, EffectError>)
    ensures result.Ok? <==> forall s :: s in ordered ==> Runs(records, s, setting)
    ensures result.Ok? ==> result.value == MapSeq(ReportFor(records, setting), ordered)
  {
    var reports: seq<InteractionReport> := [];
    assert MapSeq(ReportFor(records, setting), ordered[..0]) == [];
    for k := 0 to |ordered|
      invariant forall s :: s in ordered[..k] ==> Runs(records, s, setting)
      invariant reports == MapSeq(ReportFor(records, setting), ordered[..k])
    {
      var report := ReportInteraction(records, ordered[k], setting);
      if report.Err? {
        assert ordered[k] in ordered;
        return Err(report.error);
      }
      MapMore(ReportFor(records, setting), ordered, k);
      TakeMore(ordered, k);
      reports := reports + [report.value];
    }
    assert ordered[..|ordered|] == ordered;
    return Ok(reports);
  }

  /** positions lists, in order, the estimated ones among the first n reports, and raws their p-values. */
  ghost predicate Listed(positions: seq<nat>, raws: seq<real>, reports: seq<InteractionReport>, n: nat)
    requires n <= |reports|
  {
    && raws == Raws(reports[..n]) && |positions| == |raws|
    && (forall q :: 0 <= q < |positions| ==> positions[q] < n && raws[q] == PValueOf(reports[positions[q]]))
    && (forall i: nat :: i in positions <==> i < n && reports[i].result.Some?)
  }

  /** The comprehension that pairs each estimated report with its index. */
  method ListEstimated(reports: seq<InteractionReport>) returns (positions: seq<nat>, raws: seq<real>)
    ensures Listed(positions, raws, reports, |reports|)
  {
    positions, raws := [], [];
    assert reports[..0] == [] && Raws([]) == [];
    for k := 0 to |reports|
      invariant Listed(positions, raws, reports, k)
    {
      RawsMore(reports, k);
      if reports[k].result.Some? {
        positions, raws := positions + [k], raws + [PValueOf(reports[k])];
      }
    }
  }

  lemma {:induction false} RawsMore(reports: seq<InteractionReport>, k: nat)
    requires k < |reports|
    ensures Raws(reports[..k + 1])
            == Raws(reports[..k]) + (if reports[k].result.Some? then [PValueOf(reports[k])] else [])
  {
    var kept, report := Keep(IsEstimated(), reports[..k]), reports[k];
    TakeMore(reports, k);
    KeepSnoc(IsEstimated(), reports[..k], report);
    assert kept + [] == kept;
    MapAppend(PValueOf, kept, [report]);
    assert MapSeq(PValueOf, [report]) == [PValueOf(report)];
  }

  lemma {:induction false} PValueInUnit(records: seq<AttemptRecord>, s: Interaction, setting: Setting)
    ensures 0.0 <= PValueOf(ReportFor(records, setting)(s)) <= 1.0
  {
    if Runs(records, s, setting) {
      R.FlipPValueInUnit(ValuesOf(records, s, setting).value, setting.options.resamples, setting.draws.coin);
    }
  }

  lemma {:induction false} RawsInUnit(records: seq<AttemptRecord>, specs: seq<Interaction>, setting: Setting)
    ensures MultipleTesting.InUnit(RawsOf(records, specs, setting))
  {
    var report := ReportFor(records, setting);
    var reports := MapSeq(report, specs);
    var kept := Keep(IsEstimated(), reports);
    KeepMembers(IsEstimated(), reports);
    forall k | 0 <= k < |kept| ensures 0.0 <= PValueOf(kept[k]) <= 1.0 {
      assert kept[k] in reports;
      var i :| 0 <= i < |reports| && reports[i] == kept[k];
      assert reports[i] == report(specs[i]);
      PValueInUnit(records, specs[i], setting);
    }
  }

  lemma {:induction false} IdsAscend(specs: seq<Interaction>)
    ensures forall i, j :: 0 <= i < j < |Sort(specs, ById)| ==>
              StringLe(Sort(specs, ById)[i].id, Sort(specs, ById)[j].id)
  {
    StringLeIsOrder();
    SortOrdered(specs, ById);
    var ordered := Sort(specs, ById);
    forall i, j | 0 <= i < j < |ordered| ensures StringLe(ordered[i].id, ordered[j].id) {
      assert ById(ordered[i], ordered[j]);
    }
  }

  /** `_interaction_reports`: the held interactions stay uncorrected, and the others are corrected among themselves. */
  method InteractionReports(records: seq<AttemptRecord>, specs: seq<Interaction>, setting: Setting)
    returns (result: Result<seq<InteractionRow>, EffectError>)
    ensures result.Ok? <==> forall s :: s in specs ==> Runs(records, s, setting)
    ensures result.Ok? ==> result.value == Family(records, specs, setting)
    ensures result.Ok? ==> forall i, j :: 0 <= i < j < |result.value| ==>
            StringLe(result.value[i].id, result.value[j].id)
  {
    var ordered := Sort(specs, ById);
    SortPermutes(specs, ById);
    if specs == [] {
      return Ok([]);
    }
    var reported := ReportAll(records, ordered, setting);
    if reported.Err? {
      return Err(reported.error);
    }
    RawsInUnit(records, ordered, setting);
    var rows := Correct(ordered, reported.value);
    RowsAreFamily(records, ordered, setting, rows);
    IdsAscend(specs);
    return Ok(rows);
  }

  lemma {:induction false} RowsAreFamily(records: seq<AttemptRecord>, ordered: seq<Interaction>, setting: Setting,
      rows: seq<InteractionRow>)
    requires |rows| == |ordered|
    requires var reports := MapSeq(ReportFor(records, setting), ordered);
             forall i :: 0 <= i < |rows| ==> rows[i] == RowFor(ordered[i], reports[i], Raws(reports))
    ensures rows == MapSeq(RowWith(records, setting, RawsOf(records, ordered, setting)), ordered)
  {
    var reports := MapSeq(ReportFor(records, setting), ordered);
    assert forall i :: 0 <= i < |rows| ==> reports[i] == ReportFor(records, setting)(ordered[i]);
  }

  /** The correction, written back by index. */
  method Correct(ordered: seq<Interaction>, reports: seq<InteractionReport>) returns (rows: seq<InteractionRow>)
    requires |ordered| == |reports| && MultipleTesting.InUnit(Raws(reports))
    ensures |rows| == |reports| && forall i :: 0 <= i < |rows| ==>
            rows[i] == RowFor(ordered[i], reports[i], Raws(reports))
  {
    rows := seq(|reports|, i requires 0 <= i < |reports| => Uncorrected(ordered[i], reports[i]));
    var positions, raws := ListEstimated(reports);
    assert reports[..|reports|] == reports;
    if positions == [] {
      return;
    }
    var corrected := MultipleTesting.BenjaminiHochberg(raws, ALPHA);
    var correction := corrected.value;
    for q := 0 to |positions|
      invariant |rows| == |reports|
      invariant forall i: nat :: i < |rows| ==>
                  rows[i] == if i in positions[..q] then RowFor(ordered[i], reports[i], raws)
                    else Uncorrected(ordered[i], reports[i])
    {
      var index := positions[q];
      assert index in positions;
      TakeMore(positions, q);
      rows := rows[index := InteractionRow(ordered[index].id, reports[index], Some(correction.adjusted[q]),
                                           Some(correction.reject[q]))];
    }
    assert positions[..|positions|] == positions;
  }

  // ----- What the family does not depend on -----

  lemma {:induction false} RowsForgetRaws(s: Interaction, report: InteractionReport, raws: seq<real>, others: seq<real>)
    requires multiset(raws) == multiset(others) && (report.result.Some? ==> PValueOf(report) in raws)
    ensures RowFor(s, report, raws) == RowFor(s, report, others)
  {
    if report.result.Some? {
      MultisetFacts(raws, others);
      var i :| 0 <= i < |raws| && raws[i] == PValueOf(report);
      var j :| 0 <= j < |others| && others[j] == PValueOf(report);
      MultipleTestingLaws.AdjustmentsForgetOrder(raws, others, i, j);
    }
  }

  lemma {:induction false} RawsForgetOrder(reports: seq<InteractionReport>, others: seq<InteractionReport>)
    requires multiset(reports) == multiset(others)
    ensures multiset(Raws(reports)) == multiset(Raws(others))
  {
    KeepForgetsOrder(IsEstimated(), reports, others);
    MapForgetsOrder(PValueOf, Keep(IsEstimated(), reports), Keep(IsEstimated(), others));
  }

  lemma {:induction false} RawsContain(reports: seq<InteractionReport>, r: InteractionReport)
    requires r in reports && r.result.Some?
    ensures PValueOf(r) in Raws(reports)
  {
    var kept, raws := Keep(IsEstimated(), reports), Raws(reports);
    KeepMembers(IsEstimated(), reports);
    var i :| 0 <= i < |kept| && kept[i] == r;
    assert raws[i] == PValueOf(kept[i]);
  }

  /** The rows of a family, in any order and with any order of the p-values. */
  lemma {:induction false} FamilyAsMultiset(records: seq<AttemptRecord>, specs: seq<Interaction>, setting: Setting,
      raws: seq<real>)
    requires multiset(raws) == multiset(RawsOf(records, specs, setting))
    ensures multiset(Family(records, specs, setting)) == multiset(MapSeq(RowWith(records, setting, raws), specs))
  {
    var ordered, report := Sort(specs, ById), ReportFor(records, setting);
    var sortedRaws := RawsOf(records, ordered, setting);
    SortPermutes(specs, ById);
    MapForgetsOrder(report, ordered, specs);
    RawsForgetOrder(MapSeq(report, ordered), MapSeq(report, specs));
    SameRows(records, ordered, setting, sortedRaws, raws);
    MapForgetsOrder(RowWith(records, setting, raws), ordered, specs);
  }

  lemma {:induction false} SameRows(records: seq<AttemptRecord>, specs: seq<Interaction>, setting: Setting,
      raws: seq<real>, others: seq<real>)
    requires multiset(raws) == multiset(others) && multiset(raws) == multiset(RawsOf(records, specs, setting))
    ensures MapSeq(RowWith(records, setting, raws), specs) == MapSeq(RowWith(records, setting, others), specs)
  {
    var reports, own := MapSeq(ReportFor(records, setting), specs), RawsOf(records, specs, setting);
    var one, two := MapSeq(RowWith(records, setting, raws), specs), MapSeq(RowWith(records, setting, others), specs);
    MultisetFacts(raws, own);
    forall k | 0 <= k < |specs| ensures one[k] == two[k] {
      assert reports[k] == ReportFor(records, setting)(specs[k]);
      if reports[k].result.Some? { RawsContain(reports, reports[k]); }
      RowsForgetRaws(specs[k], reports[k], raws, others);
      assert one[k] == RowWith(records, setting, raws)(specs[k]) &&
        two[k] == RowWith(records, setting, others)(specs[k]);
    }
  }

  /** A held interaction adds its own row and changes no other: it does not count in the correction. */
  lemma {:induction false} HeldInteractionsDoNotCount(records: seq<AttemptRecord>, specs: seq<Interaction>,
      held: Interaction, setting: Setting)
    requires ReportFor(records, setting)(held).result.None?
    ensures multiset(Family(records, specs + [held], setting))
            == multiset(Family(records, specs, setting))
              + multiset{Uncorrected(held, ReportFor(records, setting)(held))}
  {
    var report, raws := ReportFor(records, setting), RawsOf(records, specs, setting);
    var row := RowWith(records, setting, raws);
    MapAppend(report, specs, [held]);
    assert MapSeq(report, [held]) == [report(held)];
    KeepSnoc(IsEstimated(), MapSeq(report, specs), report(held));
    assert Keep(IsEstimated(), MapSeq(report, specs)) + [] == Keep(IsEstimated(), MapSeq(report, specs));
    FamilyAsMultiset(records, specs, setting, raws);
    FamilyAsMultiset(records, specs + [held], setting, raws);
    MapAppend(row, specs, [held]);
    assert MapSeq(row, [held]) == [row(held)];
  }

  lemma {:induction false} OrderedIdsForgetOrder(s: seq<Interaction>, t: seq<Interaction>)
    requires multiset(s) == multiset(t) && Distinct(MapSeq(IdOf, s))
    ensures Sort(s, ById) == Sort(t, ById)
  {
    StringLeIsOrder();
    assert TotalPreorder(ById);
    forall x, y | x in s && y in s && ById(x, y) && ById(y, x) ensures x == y {
      var i :| 0 <= i < |s| && s[i] == x;
      var j :| 0 <= j < |s| && s[j] == y;
      assert MapSeq(IdOf, s)[i] == IdOf(x) && MapSeq(IdOf, s)[j] == IdOf(y);
    }
    SortForgetsOrder(s, t, ById);
  }

  /** Listing the attempts or the interactions in another order gives the same family. */
  lemma {:induction false} InteractionsForgetInputOrder(attempts: seq<AttemptRecord>, others: seq<AttemptRecord>,
      specs: seq<Interaction>, otherSpecs: seq<Interaction>, setting: Setting)
    requires multiset(attempts) == multiset(others) && Distinct(MapSeq(AttemptIdOf, attempts))
    requires multiset(specs) == multiset(otherSpecs) && Distinct(MapSeq(IdOf, specs))
    ensures Family(Included(attempts), specs, setting) == Family(Included(others), otherSpecs, setting)
  {
    IncludedForgetsOrder(attempts, others);
    OrderedIdsForgetOrder(specs, otherSpecs);
  }

  function Exchanged(s: Interaction): Interaction { s.(spec := ExchangeFactors(s.spec)) }

  predicate Proper(s: Interaction) { s.spec.controlA != s.spec.treatmentA && s.spec.controlB != s.spec.treatmentB }

  lemma {:induction false} ExchangeKeepsReport(records: seq<AttemptRecord>, s: Interaction, setting: Setting)
    requires Proper(s)
    ensures ReportFor(records, setting)(Exchanged(s)) == ReportFor(records, setting)(s)
  {
    ExchangingFactorsChangesNothing(records, s.spec, setting.render);
  }

  /** Naming the two factors of every interaction the other way round changes no row. */
  lemma {:induction false} ExchangeKeepsFamily(records: seq<AttemptRecord>, specs: seq<Interaction>, setting: Setting)
    requires forall s :: s in specs ==> Proper(s)
    ensures Family(records, MapSeq(Exchanged, specs), setting) == Family(records, specs, setting)
  {
    var ordered, report := Sort(specs, ById), ReportFor(records, setting);
    var exchanged := MapSeq(Exchanged, ordered);
    SortPermutes(specs, ById);
    SortCommutes(specs, Exchanged, ById, ById);
    var one, two := MapSeq(report, exchanged), MapSeq(report, ordered);
    forall k | 0 <= k < |ordered| ensures one[k] == two[k] {
      assert exchanged[k] == Exchanged(ordered[k]);
      ExchangeKeepsReport(records, ordered[k], setting);
      assert one[k] == report(exchanged[k]) && two[k] == report(ordered[k]);
    }
    assert one == two;
    var row := RowWith(records, setting, RawsOf(records, ordered, setting));
    var rows, others := MapSeq(row, exchanged), MapSeq(row, ordered);
    forall k | 0 <= k < |ordered| ensures rows[k] == others[k] {
      assert exchanged[k] == Exchanged(ordered[k]) && one[k] == report(exchanged[k]) && two[k] == report(ordered[k]);
      assert rows[k] == row(exchanged[k]) && others[k] == row(ordered[k]);
    }
    assert rows == others;
  }
}
