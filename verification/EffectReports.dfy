/** Effect reports: one contrast, estimated three times, with its interval and its test. */
module EffectReports {
  import opened Prelude
  import opened Sorting
  import opened SignFlip
  import opened EffectPairing
  import R = Resampling

  // ----- Paired effects -----

  datatype PairedObservation = PairedObservation(pairId: string, control: real, treatment: real)

  datatype PairedError = NoObservations | DuplicatePairId

  datatype PairedEffect = PairedEffect(
    pairs: nat, treatmentMean: real, controlMean: real, difference: real, treatmentOnly: nat, controlOnly: nat)

  function PairIdOf(o: PairedObservation): string { o.pairId }

  function ControlOf(o: PairedObservation): real { o.control }

  function TreatmentOf(o: PairedObservation): real { o.treatment }

  function DifferenceOf(o: PairedObservation): real { o.treatment - o.control }

  function TreatmentOnly(): PairedObservation -> bool { (o: PairedObservation) =>
    o.treatment == 1.0 && o.control == 0.0 }

  function ControlOnly(): PairedObservation -> bool { (o: PairedObservation) => o.treatment == 0.0 && o.control == 1.0 }

  /** `paired_binary_risk_difference` on 0/1 values, `paired_continuous_effect` on any. */
  function PairedEffectOf(obs: seq<PairedObservation>): Result<PairedEffect, PairedError> {
    if obs == [] then Err(NoObservations)
    else if !Distinct(MapSeq(PairIdOf, obs)) then Err(DuplicatePairId)
    else Ok(PairedEffect(|obs|, Mean(MapSeq(TreatmentOf, obs)), Mean(MapSeq(ControlOf, obs)),
                         Mean(MapSeq(DifferenceOf, obs)),
                         Count(TreatmentOnly(), obs), Count(ControlOnly(), obs)))
  }

  predicate Binary(obs: seq<PairedObservation>) {
    forall k :: 0 <= k < |obs| ==>
      (obs[k].control == 0.0 || obs[k].control == 1.0) && (obs[k].treatment == 0.0 || obs[k].treatment == 1.0)
  }

  lemma {:induction false} SumsDecompose(obs: seq<PairedObservation>)
    ensures Sum(MapSeq(DifferenceOf, obs)) == Sum(MapSeq(TreatmentOf, obs)) - Sum(MapSeq(ControlOf, obs))
    ensures Binary(obs) ==>
              Sum(MapSeq(DifferenceOf, obs)) == Count(TreatmentOnly(), obs) as real - Count(ControlOnly(), obs) as real
  {
    if obs != [] {
      var before, after, change := MapSeq(ControlOf, obs), MapSeq(TreatmentOf, obs), MapSeq(DifferenceOf, obs);
      SumsDecompose(obs[1..]);
      assert Binary(obs) ==> Binary(obs[1..]);
      assert change[0] == DifferenceOf(obs[0]) && after[0] == TreatmentOf(obs[0]) && before[0] == ControlOf(obs[0]);
      assert MapSeq(DifferenceOf, obs)[1..] == MapSeq(DifferenceOf, obs[1..]);
      assert MapSeq(TreatmentOf, obs)[1..] == MapSeq(TreatmentOf, obs[1..]);
      assert MapSeq(ControlOf, obs)[1..] == MapSeq(ControlOf, obs[1..]);
    }
  }

  /** The mean difference is the difference of the means, and for binary outcomes the net share of discordant pairs. */
  lemma {:induction false} PairedEffectDecomposes(obs: seq<PairedObservation>)
    requires PairedEffectOf(obs).Ok?
    ensures var e := PairedEffectOf(obs).value;
            && e.difference == e.treatmentMean - e.controlMean
            && (Binary(obs) ==> e.difference == (e.treatmentOnly as real - e.controlOnly as real) / e.pairs as real)
  {
    SumsDecompose(obs);
    var n := |obs| as real;
    QuotientDifference(Sum(MapSeq(TreatmentOf, obs)), Sum(MapSeq(ControlOf, obs)), n);
  }

  lemma {:induction false} QuotientDifference(a: real, b: real, n: real)
    requires n > 0.0
    ensures (a - b) / n == a / n - b / n
  {
  }

  // ----- The pairs of a main effect -----

  /** In a complete group every needed cell has its one record, so the lookups cannot fail. */
  lemma {:induction false} RecordAtFinds(group: seq<AttemptRecord>, ids: seq<string>, cell: Levels)
    requires exists k :: 0 <= k < |group| && CellOf(group[k], ids) == Some(cell)
    ensures RecordAt(group, ids, cell).Some? && RecordAt(group, ids, cell).value in group
    ensures CellOf(RecordAt(group, ids, cell).value, ids) == Some(cell)
  {
    var last := group[|group| - 1];
    if CellOf(last, ids) != Some(cell) {
      var k :| 0 <= k < |group| && CellOf(group[k], ids) == Some(cell);
      var before := group[..|group| - 1];
      assert before[k] == group[k];
      RecordAtFinds(before, ids, cell);
    }
  }

  lemma {:induction false} CompleteLookup(group: seq<AttemptRecord>, ids: seq<string>, needed: set<Levels>,
      cell: Levels)
    requires Complete(group, ids, needed) && cell in needed
    ensures RecordAt(group, ids, cell).Some? && RecordAt(group, ids, cell).value in group
  {
    var k := CompleteHasEachCell(group, ids, needed, cell);
    RecordAtFinds(group, ids, cell);
  }

  /** What the loop of `_main_effect` takes from one pair. */
  datatype Row = Row(control: AttemptRecord, treatment: AttemptRecord, value: R.Observation,
                     observed: PairedObservation)

  function ControlIdOf(row: Row): string { row.control.attemptId }

  function TreatmentIdOf(row: Row): string { row.treatment.attemptId }

  function RowValue(row: Row): R.Observation { row.value }

  function RowObserved(row: Row): PairedObservation { row.observed }

  predicate RowOf(row: Row, p: Pair, spec: MainSpec) {
    && row.control in p.group && RecordAt(p.group, [spec.factorId], [spec.control]) == Some(row.control)
    && row.treatment in p.group && RecordAt(p.group, [spec.factorId], [spec.treatment]) == Some(row.treatment)
    && row.observed.pairId == row.control.attemptId
    && row.value == R.Observation(p.cluster, row.observed.treatment - row.observed.control)
    && MainDifference(spec)(p) == Some(row.value.value)
    && (spec.outcome.SuccessOutcome? ==> Binary([row.observed]))
  }

  ghost predicate Collected(rows: seq<Row>, pairs: seq<Pair>, spec: MainSpec) {
    && |rows| == |pairs|
    && (forall k :: 0 <= k < |rows| ==> RowOf(rows[k], pairs[k], spec))
    && Contrast(pairs, MainDifference(spec)) == Some(MapSeq(RowValue, rows))
  }

  method TakeRow(p: Pair, spec: MainSpec) returns (row: Option<Row>)
    requires Complete(p.group, [spec.factorId], MainNeeded(spec))
    ensures row.None? <==> MainDifference(spec)(p).None?
    ensures row.Some? ==> RowOf(row.value, p, spec)
  {
    CompleteLookup(p.group, [spec.factorId], MainNeeded(spec), [spec.control]);
    CompleteLookup(p.group, [spec.factorId], MainNeeded(spec), [spec.treatment]);
    var control := RecordAt(p.group, [spec.factorId], [spec.control]).value;
    var treatment := RecordAt(p.group, [spec.factorId], [spec.treatment]).value;
    var before, after := OutcomeOf(control, spec.outcome), OutcomeOf(treatment, spec.outcome);
    if before.None? || after.None? {
      return None;
    }
    return Some(Row(control, treatment, R.Observation(p.cluster, after.value - before.value),
                    PairedObservation(control.attemptId, before.value, after.value)));
  }

  lemma {:induction false} CollectNothing(spec: MainSpec)
    ensures Collected([], [], spec)
  {
    assert MapSeq(RowValue, []) == [];
  }

  lemma {:induction false} CollectOne(rows: seq<Row>, row: Row, pairs: seq<Pair>, p: Pair, spec: MainSpec)
    requires Collected(rows, pairs, spec) && RowOf(row, p, spec)
    ensures Collected(rows + [row], pairs + [p], spec)
  {
    assert (pairs + [p])[..|pairs|] == pairs;
    MapAppend(RowValue, rows, [row]);
    assert MapSeq(RowValue, [row]) == [RowValue(row)];
  }

  lemma {:induction false} ContrastNeedsAll(pairs: seq<Pair>, f: Pair -> Option<real>, k: nat)
    requires k < |pairs| && f(pairs[k]).None?
    ensures Contrast(pairs, f).None?
  {
    if k < |pairs| - 1 { ContrastNeedsAll(pairs[..|pairs| - 1], f, k); }
  }

  method CollectRows(pairs: seq<Pair>, spec: MainSpec) returns (complete: bool, rows: seq<Row>)
    requires forall k :: 0 <= k < |pairs| ==> Complete(pairs[k].group, [spec.factorId], MainNeeded(spec))
    ensures complete <==> Contrast(pairs, MainDifference(spec)).Some?
    ensures complete ==> Collected(rows, pairs, spec)
  {
    rows := [];
    CollectNothing(spec);
    assert pairs[..0] == [];
    for k := 0 to |pairs|
      invariant Collected(rows, pairs[..k], spec)
    {
      var row := TakeRow(pairs[k], spec);
      if row.None? {
        ContrastNeedsAll(pairs, MainDifference(spec), k);
        return false, rows;
      }
      CollectOne(rows, row.value, pairs[..k], pairs[k], spec);
      TakeMore(pairs, k);
      rows := rows + [row.value];
    }
    assert pairs[..|pairs|] == pairs;
    complete := true;
  }

  /** Every grouped record is one of the records, and no two groups share one. */
  ghost predicate Apart(pairs: seq<Pair>, records: seq<AttemptRecord>) {
    && (forall k, r :: 0 <= k < |pairs| && r in pairs[k].group ==> r in records)
    && (forall i, j, r :: 0 <= i < j < |pairs| && r in pairs[i].group ==> r !in pairs[j].group)
  }

  lemma {:induction false} PartitionIsApart(pairs: seq<Pair>, records: seq<AttemptRecord>, ids: seq<string>,
      needed: set<Levels>)
    requires Partition(pairs, records, ids, needed)
    ensures Apart(pairs, records) && pairs != [] && forall k :: 0 <= k < |pairs| ==>
            Complete(pairs[k].group, ids, needed)
  {
  }

  /** Different pairs have different control attempts, so the paired estimator never sees a duplicate id. */
  lemma {:induction false} ControlIdsDistinct(records: seq<AttemptRecord>, pairs: seq<Pair>, spec: MainSpec,
      rows: seq<Row>)
    requires Distinct(MapSeq(AttemptIdOf, records)) && Apart(pairs, records) && |rows| == |pairs|
    requires forall k :: 0 <= k < |rows| ==> RowOf(rows[k], pairs[k], spec)
    ensures Distinct(MapSeq(PairIdOf, MapSeq(RowObserved, rows)))
  {
    var ids := MapSeq(PairIdOf, MapSeq(RowObserved, rows));
    forall i, j | 0 <= i < j < |ids| ensures ids[i] != ids[j] {
      assert ids[i] == PairIdOf(RowObserved(rows[i])) && ids[j] == PairIdOf(RowObserved(rows[j]));
      RowsDiffer(records, pairs[i], pairs[j], rows[i], rows[j], spec);
    }
  }

  lemma {:induction false} RowsDiffer(records: seq<AttemptRecord>, p: Pair, q: Pair, row: Row, other: Row,
      spec: MainSpec)
    requires Distinct(MapSeq(AttemptIdOf, records)) && RowOf(row, p, spec) && RowOf(other, q, spec)
    requires forall r :: r in p.group ==> r in records && r !in q.group
    requires forall r :: r in q.group ==> r in records
    ensures row.observed.pairId != other.observed.pairId
  {
    DisjointGroupsDiffer(records, p, q, row.control, other.control);
  }

  lemma {:induction false} DisjointGroupsDiffer(records: seq<AttemptRecord>, p: Pair, q: Pair, a: AttemptRecord,
      b: AttemptRecord)
    requires Distinct(MapSeq(AttemptIdOf, records)) && a in records && b in records
    requires a in p.group && b in q.group && forall r :: r in p.group ==> r !in q.group
    ensures a.attemptId != b.attemptId
  {
    var m :| 0 <= m < |records| && records[m] == a;
    var n :| 0 <= n < |records| && records[n] == b;
    assert MapSeq(AttemptIdOf, records)[m] == AttemptIdOf(a) && MapSeq(AttemptIdOf, records)[n] == AttemptIdOf(b);
  }

  // ----- The report -----

  datatype Options = Options(confidence: real, resamples: int, minimumClusters: int)

  datatype EffectError = Pairing(cause: PairError) | Resample(reason: R.ResampleError) | InadequateClusters

  datatype EffectReport = EffectReport(
    estimate: real,
    bootstrapEstimate: real,
    seriesNumerator: real,
    seriesDenominator: nat,
    seriesValue: real,
    lower: real,
    upper: real,
    clusterCount: nat,
    effectivePairs: nat,
    pValue: real,
    controlIds: seq<string>,
    treatmentIds: seq<string>)

  /** When the interval exists: usable options, named clusters, and enough of them. */
  predicate Reportable(values: seq<R.Observation>, options: Options) {
    && values != [] && !R.Blank(values)
    && 0.0 < options.confidence < 1.0 && options.resamples >= 1
    && 2 <= options.minimumClusters <= |R.NamesOf(values)|
  }

  /** The listed attempts are the control and the treatment record of each pair, in pair order. */
  ghost predicate Identifies(r: EffectReport, pairs: seq<Pair>, spec: MainSpec) {
    && |r.controlIds| == |r.treatmentIds| == r.effectivePairs == |pairs|
    && forall k :: 0 <= k < |pairs| ==>
         var control, treatment := RecordAt(pairs[k].group, [spec.factorId], [spec.control]),
           RecordAt(pairs[k].group, [spec.factorId], [spec.treatment]);
         control.Some? && treatment.Some? && r.controlIds[k] == control.value.attemptId &&
           r.treatmentIds[k] == treatment.value.attemptId
  }

  /** What the seeded generator draws: coins for the signs, cluster indices for the resamples. */
  datatype Draws = Draws(coin: (nat, nat) -> bool, index: (nat, nat) -> nat)

  /** The attempts a report lists and the number it gives three times. */
  ghost predicate Estimates(r: EffectReport, pairs: seq<Pair>, values: seq<R.Observation>, spec: MainSpec) {
    && values != [] && Identifies(r, pairs, spec)
    && r.estimate == r.bootstrapEstimate == r.seriesValue == Mean(MapSeq(R.ValueOf, values))
    && r.seriesDenominator == r.effectivePairs == |values|
    && r.seriesNumerator == Sum(MapSeq(R.ValueOf, values))
    && r.clusterCount == |R.NamesOf(values)| > 0
  }

  /** Everything a main-effect report says about the contrast of its pairs. */
  ghost predicate Describes(r: EffectReport, pairs: seq<Pair>, values: seq<R.Observation>, spec: MainSpec,
      options: Options, draws: Draws) {
    && Estimates(r, pairs, values, spec)
    && Least(MapSeq(R.ValueOf, values)) <= r.lower <= r.upper <= Greatest(MapSeq(R.ValueOf, values))
    && options.resamples >= 1
    && R.IntervalOf(r.lower, r.upper, R.Draws(R.GroupsFor(R.NamesOf(values), values), draws.index, options.resamples),
                    options.confidence)
    && 0.0 < r.pValue == R.FlipPValue(values, options.resamples, draws.coin) <= 1.0
  }

  /** The estimator's own differences are the differences that the interval and the test resample. */
  lemma {:induction false} DifferencesAreValues(rows: seq<Row>, pairs: seq<Pair>, spec: MainSpec)
    requires Collected(rows, pairs, spec)
    ensures MapSeq(DifferenceOf, MapSeq(RowObserved, rows)) == MapSeq(R.ValueOf, MapSeq(RowValue, rows))
  {
    forall k | 0 <= k < |rows| ensures DifferenceOf(RowObserved(rows[k])) == R.ValueOf(RowValue(rows[k])) {
      assert RowOf(rows[k], pairs[k], spec);
    }
  }

  /** The interval and the test of one list of clustered values. */
  method TestValues(values: seq<R.Observation>, options: Options, draws: Draws)
    returns (result: Result<(R.BootstrapCI, R.SignFlipResult), EffectError>)
    ensures result.Ok? <==> Reportable(values, options)
    ensures result.Ok? ==>
              && R.DescribesBootstrap(result.value.0, values, options.confidence, options.resamples,
                                      options.minimumClusters, draws.index)
              && result.value.0.adequate && R.DescribesFlips(result.value.1, values, options.resamples, draws.coin)
  {
    var bootstrap := R.TaskClusterBootstrapCI(values, options.confidence, options.resamples, options.minimumClusters,
                                              draws.index);
    if bootstrap.Err? {
      return Err(Resample(bootstrap.error));
    }
    if !bootstrap.value.adequate {
      return Err(InadequateClusters);
    }
    var flips := R.ClusterSignFlip(values, options.resamples, draws.coin);
    return Ok((bootstrap.value, flips.value));
  }

  method Assemble(rows: seq<Row>, pairs: seq<Pair>, spec: MainSpec, options: Options, bootstrap: R.BootstrapCI,
      flips: R.SignFlipResult, ghost draws: Draws)
    returns (report: EffectReport)
    requires Collected(rows, pairs, spec) && Reportable(MapSeq(RowValue, rows), options)
    requires R.DescribesBootstrap(bootstrap, MapSeq(RowValue, rows), options.confidence, options.resamples,
                                  options.minimumClusters, draws.index)
    requires bootstrap.adequate && R.DescribesFlips(flips, MapSeq(RowValue, rows), options.resamples, draws.coin)
    requires PairedEffectOf(MapSeq(RowObserved, rows)).Ok?
    ensures Describes(report, pairs, MapSeq(RowValue, rows), spec, options, draws)
  {
    var values := MapSeq(RowValue, rows);
    var paired := PairedEffectOf(MapSeq(RowObserved, rows)).value;
    DifferencesAreValues(rows, pairs, spec);
    var numerator := Sum(MapSeq(R.ValueOf, values));
    report := EffectReport(paired.difference, bootstrap.estimate, numerator, |values|, numerator / |values| as real,
                           bootstrap.lower.value, bootstrap.upper.value, bootstrap.clusterCount, |pairs|, flips.pValue,
                           MapSeq(ControlIdOf, rows), MapSeq(TreatmentIdOf, rows));
    RowsIdentify(report, rows, pairs, spec);
  }

  lemma {:induction false} RowsIdentify(report: EffectReport, rows: seq<Row>, pairs: seq<Pair>, spec: MainSpec)
    requires |rows| == |pairs| == report.effectivePairs && forall k :: 0 <= k < |rows| ==>
            RowOf(rows[k], pairs[k], spec)
    requires report.controlIds == MapSeq(ControlIdOf, rows) && report.treatmentIds == MapSeq(TreatmentIdOf, rows)
    ensures Identifies(report, pairs, spec)
  {
    forall k | 0 <= k < |pairs|
      ensures report.controlIds[k] == rows[k].control.attemptId &&
              report.treatmentIds[k] == rows[k].treatment.attemptId {
      assert report.controlIds[k] == ControlIdOf(rows[k]) && report.treatmentIds[k] == TreatmentIdOf(rows[k]);
    }
  }

  /** The part of `_main_effect` after pairing. */
  method Estimate(records: seq<AttemptRecord>, pairs: seq<Pair>, spec: MainSpec, options: Options, draws: Draws)
    returns (report: Result<EffectReport, EffectError>)
    requires Distinct(MapSeq(AttemptIdOf, records)) && Apart(pairs, records) && pairs != []
    requires forall k :: 0 <= k < |pairs| ==> Complete(pairs[k].group, [spec.factorId], MainNeeded(spec))
    ensures Contrast(pairs, MainDifference(spec)).None? ==> report == Err(Pairing(MissingOutcome))
    ensures report.Ok?
            <==> && Contrast(pairs, MainDifference(spec)).Some?
                 && Reportable(Contrast(pairs, MainDifference(spec)).value, options)
    ensures report.Ok? ==>
            Describes(report.value, pairs, Contrast(pairs, MainDifference(spec)).value, spec, options, draws)
  {
    var complete, rows := CollectRows(pairs, spec);
    if !complete {
      return Err(Pairing(MissingOutcome));
    }
    var tests := TestValues(MapSeq(RowValue, rows), options, draws);
    if tests.Err? {
      return Err(tests.error);
    }
    ControlIdsDistinct(records, pairs, spec, rows);
    var result := Assemble(rows, pairs, spec, options, tests.value.0, tests.value.1, draws);
    return Ok(result);
  }

  /**
   `_main_effect`: it reports exactly when pairing, outcomes, options and clusters allow, and its
   three estimates are one number.
   */
  method MainEffectReport(records: seq<AttemptRecord>, spec: MainSpec, options: Options, render: Key -> string,
      draws: Draws)
    returns (report: Result<EffectReport, EffectError>)
    requires Distinct(MapSeq(AttemptIdOf, records))
    ensures MainEffect(records, spec, render).Err? ==> report == Err(Pairing(MainEffect(records, spec, render).error))
    ensures report.Ok?
            <==> MainEffect(records, spec, render).Ok? && Reportable(MainEffect(records, spec, render).value, options)
    ensures report.Ok? ==>
            Describes(report.value, PairRecords(records, [spec.factorId], MainNeeded(spec), render).value,
                                     MainEffect(records, spec, render).value, spec, options, draws)
  {
    var pairs := ComputePairs(records, [spec.factorId], MainNeeded(spec), render);
    if pairs.Err? {
      return Err(Pairing(pairs.error));
    }
    PairsPartitionEligible(records, [spec.factorId], MainNeeded(spec), render);
    PartitionIsApart(pairs.value, records, [spec.factorId], MainNeeded(spec));
    report := Estimate(records, pairs.value, spec, options, draws);
  }
}
