/** The registered family of main effects: one report a specification, and Holm's correction over all of them. */
module EffectFamily {
  import opened Prelude
  import opened Sorting
  import opened EffectPairing
  import opened EffectReports
  import R = Resampling
  import MultipleTesting

  const ALPHA := 0.05

  datatype Registered = Registered(effectId: string, spec: MainSpec)

  /** The options and the seeded randomness that every report of one analysis shares. */
  datatype Setting = Setting(options: Options, render: Key -> string, draws: Draws)

  datatype Corrected = Corrected(effectId: string, report: EffectReport, adjusted: real, rejected: bool)

  predicate ByEffectId(a: Registered, b: Registered) { StringLe(a.effectId, b.effectId) }

  function EffectIdOf(s: Registered): string { s.effectId }

  function ReportOf(c: Corrected): EffectReport { c.report }

  function RawPValue(r: EffectReport): real { r.pValue }

  /** A specification for which `_main_effect` returns. */
  predicate Estimable(records: seq<AttemptRecord>, s: Registered, setting: Setting) {
    && MainEffect(records, s.spec, setting.render).Ok?
    && Reportable(MainEffect(records, s.spec, setting.render).value, setting.options)
  }

  /** The report of one specification. */
  ghost predicate Reports(r: EffectReport, records: seq<AttemptRecord>, s: Registered, setting: Setting) {
    && Estimable(records, s, setting)
    && PairRecords(records, [s.spec.factorId], MainNeeded(s.spec), setting.render).Ok?
    && Describes(r, PairRecords(records, [s.spec.factorId], MainNeeded(s.spec), setting.render).value,
                 MainEffect(records, s.spec, setting.render).value, s.spec, setting.options, setting.draws)
  }

  ghost predicate AllReport(reports: seq<EffectReport>, records: seq<AttemptRecord>, ordered: seq<Registered>,
      setting: Setting) {
    |reports| == |ordered| && forall k :: 0 <= k < |reports| ==> Reports(reports[k], records, ordered[k], setting)
  }

  predicate IsCorrected(row: Corrected, effectId: string, report: EffectReport, raw: seq<real>) {
    && row.effectId == effectId && row.report == report
    && row.adjusted == MultipleTesting.HolmAt(raw, report.pValue)
    && (row.rejected <==> row.adjusted <= 0.05)
  }

  /** One row for each specification, in the order of the effect ids, with the adjusted value of its own p-value. */
  ghost predicate IsFamily(rows: seq<Corrected>, records: seq<AttemptRecord>, specs: seq<Registered>,
      setting: Setting) {
    var ordered, reports := Sort(specs, ByEffectId), MapSeq(ReportOf, rows);
    && AllReport(reports, records, ordered, setting)
    && forall k :: 0 <= k < |rows| ==>
      k < |ordered| && IsCorrected(rows[k], ordered[k].effectId, rows[k].report, MapSeq(RawPValue, reports))
  }

  method EstimateOne(records: seq<AttemptRecord>, s: Registered, setting: Setting)
    returns (result: Result<EffectReport, EffectError>)
    requires Distinct(MapSeq(AttemptIdOf, records))
    ensures result.Ok? <==> Estimable(records, s, setting)
    ensures result.Ok? ==> Reports(result.value, records, s, setting)
  {
    result := MainEffectReport(records, s.spec, setting.options, setting.render, setting.draws);
  }

  /** The reports before the correction: the loop over the sorted specifications, which stops at the first error. */
  method EstimateAll(records: seq<AttemptRecord>, ordered: seq<Registered>, setting: Setting)
    returns (result: Result<seq<EffectReport>, EffectError>)
    requires Distinct(MapSeq(AttemptIdOf, records))
    ensures result.Ok? <==> forall s :: s in ordered ==> Estimable(records, s, setting)
    ensures result.Ok? ==> AllReport(result.value, records, ordered, setting)
  {
    var reports: seq<EffectReport> := [];
    for k := 0 to |ordered|
      invariant AllReport(reports, records, ordered[..k], setting)
    {
      var report := EstimateOne(records, ordered[k], setting);
      if report.Err? {
        assert ordered[k] in ordered;
        return Err(report.error);
      }
      ReportSnoc(reports, report.value, records, ordered, k, setting);
      reports := reports + [report.value];
    }
    assert ordered[..|ordered|] == ordered;
    AllEstimable(reports, records, ordered, setting);
    return Ok(reports);
  }

  lemma {:induction false} ReportSnoc(reports: seq<EffectReport>, report: EffectReport, records: seq<AttemptRecord>,
      ordered: seq<Registered>, k: nat, setting: Setting)
    requires k < |ordered| && AllReport(reports, records, ordered[..k], setting)
    requires Reports(report, records, ordered[k], setting)
    ensures AllReport(reports + [report], records, ordered[..k + 1], setting)
  {
    TakeMore(ordered, k);
  }

  lemma {:induction false} AllEstimable(reports: seq<EffectReport>, records: seq<AttemptRecord>,
      ordered: seq<Registered>, setting: Setting)
    requires AllReport(reports, records, ordered, setting)
    ensures forall s :: s in ordered ==> Estimable(records, s, setting)
  {
    forall s | s in ordered ensures Estimable(records, s, setting) {
      var k :| 0 <= k < |ordered| && ordered[k] == s;
      assert Reports(reports[k], records, ordered[k], setting);
    }
  }

  lemma {:induction false} RawInUnit(reports: seq<EffectReport>, records: seq<AttemptRecord>,
      ordered: seq<Registered>, setting: Setting)
    requires AllReport(reports, records, ordered, setting)
    ensures MultipleTesting.InUnit(MapSeq(RawPValue, reports))
  {
    forall k | 0 <= k < |reports| ensures 0.0 <= RawPValue(reports[k]) <= 1.0 {
      assert Reports(reports[k], records, ordered[k], setting);
    }
  }

  lemma {:induction false} IdsAscend(specs: seq<Registered>)
    ensures forall i, j :: 0 <= i < j < |Sort(specs, ByEffectId)| ==>
              StringLe(Sort(specs, ByEffectId)[i].effectId, Sort(specs, ByEffectId)[j].effectId)
  {
    StringLeIsOrder();
    SortOrdered(specs, ByEffectId);
    var ordered := Sort(specs, ByEffectId);
    forall i, j | 0 <= i < j < |ordered| ensures StringLe(ordered[i].effectId, ordered[j].effectId) {
      assert ByEffectId(ordered[i], ordered[j]);
    }
  }

  /** `_main_effect_reports`. */
  method MainEffectReports(records: seq<AttemptRecord>, specs: seq<Registered>, setting: Setting)
    returns (result: Result<seq<Corrected>, EffectError>)
    requires Distinct(MapSeq(AttemptIdOf, records))
    ensures result.Ok? <==> forall s :: s in specs ==> Estimable(records, s, setting)
    ensures result.Ok? ==> IsFamily(result.value, records, specs, setting)
    ensures result.Ok? ==> forall i, j :: 0 <= i < j < |result.value| ==>
            StringLe(result.value[i].effectId, result.value[j].effectId)
  {
    var ordered := Sort(specs, ByEffectId);
    SortPermutes(specs, ByEffectId);
    if specs == [] {
      return Ok([]);
    }
    var estimated := EstimateAll(records, ordered, setting);
    if estimated.Err? {
      return Err(estimated.error);
    }
    var reports := estimated.value;
    var raw := MapSeq(RawPValue, reports);
    RawInUnit(reports, records, ordered, setting);
    var corrected := MultipleTesting.Holm(raw, ALPHA);
    var rows := Correct(ordered, reports, raw, corrected.value);
    IdsAscend(specs);
    return Ok(rows);
  }

  /** The last loop of `_main_effect_reports`: each report is copied with its place in the correction. */
  method Correct(ordered: seq<Registered>, reports: seq<EffectReport>, raw: seq<real>,
      correction: MultipleTesting.CorrectionResult)
    returns (rows: seq<Corrected>)
    requires |ordered| == |reports| && raw == MapSeq(RawPValue, reports)
    requires |correction.adjusted| == |correction.reject| == |raw|
    requires forall i :: 0 <= i < |raw| ==> correction.adjusted[i] == MultipleTesting.HolmAt(raw, raw[i])
    requires forall i :: 0 <= i < |raw| ==> (correction.reject[i] <==> MultipleTesting.HolmAt(raw, raw[i]) <= ALPHA)
    ensures MapSeq(ReportOf, rows) == reports
    ensures forall k :: 0 <= k < |rows| ==> IsCorrected(rows[k], ordered[k].effectId, rows[k].report, raw)
  {
    rows := [];
    for k := 0 to |reports|
      invariant |rows| == k
      invariant forall i :: 0 <= i < k ==> IsCorrected(rows[i], ordered[i].effectId, reports[i], raw)
    {
      assert raw[k] == RawPValue(reports[k]);
      rows := rows + [Corrected(ordered[k].effectId, reports[k], correction.adjusted[k], correction.reject[k])];
    }
    assert forall k :: 0 <= k < |reports| ==> ReportOf(rows[k]) == reports[k];
    assert MapSeq(ReportOf, rows) == reports;
  }

  // ----- The order of attempts and specifications does not matter -----

  lemma {:induction false} OrderedSpecsForgetOrder(s: seq<Registered>, t: seq<Registered>)
    requires multiset(s) == multiset(t) && Distinct(MapSeq(EffectIdOf, s))
    ensures Sort(s, ByEffectId) == Sort(t, ByEffectId)
  {
    StringLeIsOrder();
    assert TotalPreorder(ByEffectId);
    forall x, y | x in s && y in s && ByEffectId(x, y) && ByEffectId(y, x) ensures x == y {
      var i :| 0 <= i < |s| && s[i] == x;
      var j :| 0 <= j < |s| && s[j] == y;
      assert MapSeq(EffectIdOf, s)[i] == EffectIdOf(x) && MapSeq(EffectIdOf, s)[j] == EffectIdOf(y);
    }
    SortForgetsOrder(s, t, ByEffectId);
  }

  /** The description of a report leaves nothing open. */
  lemma {:induction false} ReportsAgree(a: EffectReport, b: EffectReport, records: seq<AttemptRecord>,
      s: Registered, setting: Setting)
    requires Reports(a, records, s, setting) && Reports(b, records, s, setting)
    ensures a == b
  {
    SameIds(a, b, PairRecords(records, [s.spec.factorId], MainNeeded(s.spec), setting.render).value, s.spec);
    var values := MainEffect(records, s.spec, setting.render).value;
    SameInterval(a, b, R.Draws(R.GroupsFor(R.NamesOf(values), values), setting.draws.index, setting.options.resamples),
                 setting.options.confidence);
  }

  lemma {:induction false} SameInterval(a: EffectReport, b: EffectReport, sample: seq<real>, confidence: real)
    requires R.IntervalOf(a.lower, a.upper, sample, confidence) && R.IntervalOf(b.lower, b.upper, sample, confidence)
    ensures a.lower == b.lower && a.upper == b.upper
  {
    R.IntervalIsUnique(sample, confidence, a.lower, a.upper, b.lower, b.upper);
  }

  lemma {:induction false} SameIds(a: EffectReport, b: EffectReport, pairs: seq<Pair>, spec: MainSpec)
    requires Identifies(a, pairs, spec) && Identifies(b, pairs, spec)
    ensures a.controlIds == b.controlIds && a.treatmentIds == b.treatmentIds
  {
    forall k | 0 <= k < |pairs| ensures a.controlIds[k] == b.controlIds[k] && a.treatmentIds[k] == b.treatmentIds[k] {
      assert a.controlIds[k] == RecordAt(pairs[k].group, [spec.factorId], [spec.control]).value.attemptId;
    }
  }

  lemma {:induction false} AllReportsAgree(a: seq<EffectReport>, b: seq<EffectReport>, records: seq<AttemptRecord>,
      ordered: seq<Registered>, setting: Setting)
    requires AllReport(a, records, ordered, setting) && AllReport(b, records, ordered, setting)
    ensures a == b
  {
    forall k | 0 <= k < |a| ensures a[k] == b[k] {
      ReportsAgree(a[k], b[k], records, ordered[k], setting);
    }
  }

  /** Listing the attempts or the specifications in another order gives the same corrected family, row by row. */
  lemma {:induction false} FamilyForgetsInputOrder(attempts: seq<AttemptRecord>, others: seq<AttemptRecord>,
      specs: seq<Registered>, otherSpecs: seq<Registered>, setting: Setting, rows: seq<Corrected>,
      otherRows: seq<Corrected>)
    requires multiset(attempts) == multiset(others) && Distinct(MapSeq(AttemptIdOf, attempts))
    requires multiset(specs) == multiset(otherSpecs) && Distinct(MapSeq(EffectIdOf, specs))
    requires IsFamily(rows, Included(attempts), specs, setting)
    requires IsFamily(otherRows, Included(others), otherSpecs, setting)
    ensures rows == otherRows
  {
    IncludedForgetsOrder(attempts, others);
    OrderedSpecsForgetOrder(specs, otherSpecs);
    var a, b := MapSeq(ReportOf, rows), MapSeq(ReportOf, otherRows);
    AllReportsAgree(a, b, Included(attempts), Sort(specs, ByEffectId), setting);
    forall k | 0 <= k < |rows| ensures rows[k] == otherRows[k] {
      assert a[k] == ReportOf(rows[k]) && b[k] == ReportOf(otherRows[k]);
    }
  }
}
