/** Effect estimates in terms of the attempts they list: whose outcomes enter, at which levels, and with which sign. */
module EffectOutcomes {
  import opened Prelude
  import opened Sorting
  import opened SignFlip
  import opened EffectPairing
  import opened EffectReports
  import R = Resampling

  // ----- Levels, outcomes and pairs, written out -----

  /** The record's level on a factor. */
  predicate HasLevel(r: AttemptRecord, id: string, level: Level) {
    exists k :: 0 <= k < |r.factors| && r.factors[k] == Factor(id, level) && forall j :: 0 <= j < k ==>
      r.factors[j].id != id
  }

  /** 1 for a success and 0 for a failure, or the first value that the record has for the named metric. */
  predicate Scores(r: AttemptRecord, o: Outcome, v: real) {
    match o
    case SuccessOutcome => v == if r.success then 1.0 else 0.0
    case Continuous(name) =>
      exists k :: 0 <= k < |r.outcomes| && r.outcomes[k] == Metric(name, v) && forall j :: 0 <= j < k ==>
        r.outcomes[j].name != name
  }

  function Outside(ids: seq<string>): Factor -> bool { (f: Factor) => f.id !in ids }

  /** Two attempts agree on everything but the factors under study. */
  predicate Alike(a: AttemptRecord, b: AttemptRecord, ids: seq<string>) {
    && a.pairId == b.pairId && a.taskId == b.taskId && a.taskClusterId == b.taskClusterId
    && a.scaffoldId == b.scaffoldId && a.stress == b.stress
    && Keep(Outside(ids), a.factors) == Keep(Outside(ids), b.factors)
  }

  lemma {:induction false} LevelIs(r: AttemptRecord, factors: seq<Factor>, id: string, n: nat)
    requires n <= |r.factors| && factors == r.factors[n..] && LevelOf(factors, id).Some?
    requires forall j :: 0 <= j < n ==> r.factors[j].id != id
    ensures HasLevel(r, id, LevelOf(factors, id).value)
    decreases |factors|
  {
    assert factors[0] == r.factors[n];
    if factors[0].id == id {
      assert r.factors[n] == Factor(id, LevelOf(factors, id).value);
    } else {
      LevelIs(r, factors[1..], id, n + 1);
    }
  }

  lemma {:induction false} MetricIs(r: AttemptRecord, outcomes: seq<Metric>, name: string, n: nat)
    requires n <= |r.outcomes| && outcomes == r.outcomes[n..] && MetricOf(outcomes, name).Some?
    requires forall j :: 0 <= j < n ==> r.outcomes[j].name != name
    ensures Scores(r, Continuous(name), MetricOf(outcomes, name).value)
    decreases |outcomes|
  {
    assert outcomes[0] == r.outcomes[n];
    if outcomes[0].name == name {
      assert r.outcomes[n] == Metric(name, MetricOf(outcomes, name).value);
    } else {
      MetricIs(r, outcomes[1..], name, n + 1);
    }
  }

  lemma {:induction false} OutcomeScores(r: AttemptRecord, o: Outcome)
    requires OutcomeOf(r, o).Some?
    ensures Scores(r, o, OutcomeOf(r, o).value)
  {
    if o.Continuous? {
      assert r.outcomes[0..] == r.outcomes;
      MetricIs(r, r.outcomes, o.metric, 0);
    }
  }

  lemma {:induction false} CellHasLevels(r: AttemptRecord, ids: seq<string>, cell: Levels, i: nat)
    requires CellOf(r, ids) == Some(cell) && i < |ids|
    ensures |cell| == |ids| && HasLevel(r, ids[i], cell[i])
  {
    CellLength(r, ids);
    if i == 0 {
      assert r.factors[0..] == r.factors;
      LevelIs(r, r.factors, ids[0], 0);
    } else {
      CellHasLevels(r, ids[1..], CellOf(r, ids[1..]).value, i - 1);
    }
  }

  lemma {:induction false} CellLength(r: AttemptRecord, ids: seq<string>)
    requires CellOf(r, ids).Some?
    ensures |CellOf(r, ids).value| == |ids|
  {
    if ids != [] { CellLength(r, ids[1..]); }
  }

  lemma {:induction false} RemainingKeeps(factors: seq<Factor>, ids: seq<string>)
    ensures Remaining(factors, ids) == Keep(Outside(ids), factors)
  {
    if factors != [] {
      var first, rest := factors[0], factors[1..];
      assert factors == [first] + rest;
      RemainingKeeps(rest, ids);
      KeepAppend(Outside(ids), [first], rest);
      KeepOne(Outside(ids), first);
    }
  }

  lemma {:induction false} KeepOne(f: Factor -> bool, x: Factor)
    ensures Keep(f, [x]) == if f(x) then [x] else []
  {
    assert [x][..0] == [];
  }

  /** Attempts with a pair id have one bucket key exactly when they are alike. */
  lemma {:induction false} SameKeyExactly(a: AttemptRecord, b: AttemptRecord, ids: seq<string>)
    requires a.pairId.Some? && b.pairId.Some?
    ensures KeyOf(a, ids) == KeyOf(b, ids) <==> Alike(a, b, ids)
  {
    RemainingKeeps(a.factors, ids);
    RemainingKeeps(b.factors, ids);
  }

  /** Two eligible attempts share a group exactly when they are alike. */
  lemma {:induction false} GroupedExactlyWhenAlike(records: seq<AttemptRecord>, ids: seq<string>, needed: set<Levels>,
      render: Key -> string, a: AttemptRecord, b: AttemptRecord)
    requires PairRecords(records, ids, needed, render).Ok? && a in records && b in records
    requires Eligible(ids, needed)(a) && Eligible(ids, needed)(b)
    ensures var pairs := PairRecords(records, ids, needed, render).value;
            (exists k :: 0 <= k < |pairs| && a in pairs[k].group && b in pairs[k].group) <==> Alike(a, b, ids)
  {
    var eligible := Keep(Eligible(ids, needed), records);
    var keys := SortedKeysOf(eligible, ids, render);
    var pairs := PairRecords(records, ids, needed, render).value;
    KeepMembers(Eligible(ids, needed), records);
    SortedKeys(eligible, ids, render);
    KeyedGroups(eligible, keys, ids, needed, pairs);
    SameKeyExactly(a, b, ids);
    var m :| 0 <= m < |eligible| && eligible[m] == a;
    assert KeyOf(eligible[m], ids) in keys;
    var k :| 0 <= k < |keys| && keys[k] == KeyOf(a, ids);
    assert a in pairs[k].group;
    assert b in pairs[k].group <==> KeyOf(b, ids) == keys[k];
    if i :| 0 <= i < |pairs| && a in pairs[i].group && b in pairs[i].group {
      assert KeyOf(a, ids) == keys[i] == KeyOf(b, ids);
    }
  }

  lemma {:induction false} GroupIsAlike(records: seq<AttemptRecord>, ids: seq<string>, needed: set<Levels>,
      render: Key -> string, pairs: seq<Pair>, k: nat, a: AttemptRecord, b: AttemptRecord)
    requires PairRecords(records, ids, needed, render) == Ok(pairs) && k < |pairs|
    requires a in pairs[k].group && b in pairs[k].group
    ensures a in records && b in records && a.taskClusterId == pairs[k].cluster && Alike(a, b, ids)
  {
    PairsPartitionEligible(records, ids, needed, render);
    GroupedExactlyWhenAlike(records, ids, needed, render, a, b);
  }

  /** A group holds one record for each cell, and records that are alike. */
  ghost predicate AlikeGroup(p: Pair, records: seq<AttemptRecord>, ids: seq<string>, needed: set<Levels>) {
    && Complete(p.group, ids, needed)
    && forall a, b :: a in p.group && b in p.group ==>
         a in records && a.taskClusterId == p.cluster && Alike(a, b, ids)
  }

  ghost predicate AlikeGroups(pairs: seq<Pair>, records: seq<AttemptRecord>, ids: seq<string>, needed: set<Levels>) {
    forall k :: 0 <= k < |pairs| ==> AlikeGroup(pairs[k], records, ids, needed)
  }

  lemma {:induction false} PairsAreAlike(records: seq<AttemptRecord>, ids: seq<string>, needed: set<Levels>,
      render: Key -> string, pairs: seq<Pair>)
    requires PairRecords(records, ids, needed, render) == Ok(pairs)
    ensures pairs != [] && AlikeGroups(pairs, records, ids, needed)
  {
    PairsPartitionEligible(records, ids, needed, render);
    forall k | 0 <= k < |pairs| ensures AlikeGroup(pairs[k], records, ids, needed) {
      forall a, b | a in pairs[k].group && b in pairs[k].group
        ensures a in records && a.taskClusterId == pairs[k].cluster && Alike(a, b, ids)
      {
        GroupIsAlike(records, ids, needed, render, pairs, k, a, b);
      }
    }
  }

  // ----- Main effects -----

  /** One pair of a main effect, with what its two attempts scored. */
  datatype Scored = Scored(control: AttemptRecord, treatment: AttemptRecord, before: real, after: real)

  function BeforeOf(s: Scored): real { s.before }

  function AfterOf(s: Scored): real { s.after }

  predicate IsScored(s: Scored, records: seq<AttemptRecord>, spec: MainSpec) {
    && s.control in records && s.treatment in records && Alike(s.control, s.treatment, [spec.factorId])
    && HasLevel(s.control, spec.factorId, spec.control) && HasLevel(s.treatment, spec.factorId, spec.treatment)
    && Scores(s.control, spec.outcome, s.before) && Scores(s.treatment, spec.outcome, s.after)
  }

  lemma {:induction false} ContrastAt(pairs: seq<Pair>, f: Pair -> Option<real>, values: seq<R.Observation>, k: nat)
    requires Contrast(pairs, f) == Some(values) && k < |pairs|
    ensures |values| == |pairs|
    ensures f(pairs[k]).Some? && values[k] == R.Observation(pairs[k].cluster, f(pairs[k]).value)
  {
    ContrastSize(pairs, f, values);
    var before := pairs[..|pairs| - 1];
    if k < |pairs| - 1 {
      ContrastAt(before, f, Contrast(before, f).value, k);
      assert before[k] == pairs[k];
    } else {
      ContrastSize(before, f, Contrast(before, f).value);
    }
  }

  lemma {:induction false} ContrastSize(pairs: seq<Pair>, f: Pair -> Option<real>, values: seq<R.Observation>)
    requires Contrast(pairs, f) == Some(values)
    ensures |values| == |pairs|
  {
    if pairs != [] { ContrastSize(pairs[..|pairs| - 1], f, Contrast(pairs[..|pairs| - 1], f).value); }
  }

  /** A value found in a complete group is the score of a record of the group at that cell. */
  lemma {:induction false} ValueAtIs(group: seq<AttemptRecord>, ids: seq<string>, needed: set<Levels>, cell: Levels,
      o: Outcome)
    requires Complete(group, ids, needed) && cell in needed && ValueAt(group, ids, cell, o).Some?
    ensures var r := RecordAt(group, ids, cell);
            r.Some? && r.value in group && CellOf(r.value, ids) == Some(cell) &&
            Scores(r.value, o, ValueAt(group, ids, cell, o).value)
  {
    var k := CompleteHasEachCell(group, ids, needed, cell);
    RecordAtFinds(group, ids, cell);
    OutcomeScores(RecordAt(group, ids, cell).value, o);
  }

  lemma {:induction false} ScoredGroup(p: Pair, spec: MainSpec) returns (s: Scored)
    requires Complete(p.group, [spec.factorId], MainNeeded(spec)) && MainDifference(spec)(p).Some?
    ensures MainDifference(spec)(p) == Some(s.after - s.before)
    ensures RecordAt(p.group, [spec.factorId], [spec.control]) == Some(s.control) && s.control in p.group
    ensures RecordAt(p.group, [spec.factorId], [spec.treatment]) == Some(s.treatment) && s.treatment in p.group
    ensures HasLevel(s.control, spec.factorId, spec.control) && HasLevel(s.treatment, spec.factorId, spec.treatment)
    ensures Scores(s.control, spec.outcome, s.before) && Scores(s.treatment, spec.outcome, s.after)
  {
    var group, ids, needed := p.group, [spec.factorId], MainNeeded(spec);
    ValueAtIs(group, ids, needed, [spec.control], spec.outcome);
    ValueAtIs(group, ids, needed, [spec.treatment], spec.outcome);
    s := Scored(RecordAt(group, ids, [spec.control]).value, RecordAt(group, ids, [spec.treatment]).value,
                ValueAt(group, ids, [spec.control], spec.outcome).value,
                ValueAt(group, ids, [spec.treatment], spec.outcome).value);
    CellHasLevels(s.control, ids, [spec.control], 0);
    CellHasLevels(s.treatment, ids, [spec.treatment], 0);
  }

  lemma {:induction false} ScoredPair(p: Pair, records: seq<AttemptRecord>, spec: MainSpec) returns (s: Scored)
    requires AlikeGroup(p, records, [spec.factorId], MainNeeded(spec)) && MainDifference(spec)(p).Some?
    ensures IsScored(s, records, spec) && s.control.taskClusterId == p.cluster
    ensures MainDifference(spec)(p) == Some(s.after - s.before)
    ensures RecordAt(p.group, [spec.factorId], [spec.control]) == Some(s.control)
    ensures RecordAt(p.group, [spec.factorId], [spec.treatment]) == Some(s.treatment)
  {
    s := ScoredGroup(p, spec);
  }

  /** The k-th row is the k-th listed pair of the report, and its difference the k-th clustered value. */
  predicate RowMatches(s: Scored, controlId: string, treatmentId: string, value: R.Observation,
      records: seq<AttemptRecord>, spec: MainSpec) {
    && IsScored(s, records, spec) && s.control.attemptId == controlId && s.treatment.attemptId == treatmentId
    && value == R.Observation(s.control.taskClusterId, s.after - s.before)
  }

  /** The rows are the first ones that the report lists. */
  ghost predicate RowsMatch(rows: seq<Scored>, controlIds: seq<string>, treatmentIds: seq<string>,
      values: seq<R.Observation>, records: seq<AttemptRecord>, spec: MainSpec) {
    && |rows| <= |controlIds| && |rows| <= |treatmentIds| && |rows| <= |values|
    && forall k :: 0 <= k < |rows| ==> RowMatches(rows[k], controlIds[k], treatmentIds[k], values[k], records, spec)
  }

  lemma {:induction false} RowsMatchSnoc(rows: seq<Scored>, row: Scored, controlIds: seq<string>,
      treatmentIds: seq<string>, values: seq<R.Observation>, records: seq<AttemptRecord>, spec: MainSpec)
    requires RowsMatch(rows, controlIds, treatmentIds, values, records, spec)
    requires |rows| < |controlIds| && |rows| < |treatmentIds| && |rows| < |values|
    requires RowMatches(row, controlIds[|rows|], treatmentIds[|rows|], values[|rows|], records, spec)
    ensures RowsMatch(rows + [row], controlIds, treatmentIds, values, records, spec)
  {
  }

  lemma {:induction false} RowMatchesAt(records: seq<AttemptRecord>, spec: MainSpec, report: EffectReport,
      pairs: seq<Pair>, values: seq<R.Observation>, k: nat)
    returns (row: Scored)
    requires k < |pairs| == |values| && AlikeGroup(pairs[k], records, [spec.factorId], MainNeeded(spec))
    requires Contrast(pairs, MainDifference(spec)) == Some(values) && Identifies(report, pairs, spec)
    ensures RowMatches(row, report.controlIds[k], report.treatmentIds[k], values[k], records, spec)
  {
    ContrastAt(pairs, MainDifference(spec), values, k);
    row := ScoredPair(pairs[k], records, spec);
  }

  lemma {:induction false} ScoredPairs(records: seq<AttemptRecord>, spec: MainSpec, report: EffectReport,
      pairs: seq<Pair>, values: seq<R.Observation>, n: nat)
    returns (rows: seq<Scored>)
    requires n <= |pairs| == |values| && AlikeGroups(pairs, records, [spec.factorId], MainNeeded(spec))
    requires Contrast(pairs, MainDifference(spec)) == Some(values) && Identifies(report, pairs, spec)
    ensures |rows| == n && RowsMatch(rows, report.controlIds, report.treatmentIds, values, records, spec)
  {
    rows := [];
    if n > 0 {
      var before := ScoredPairs(records, spec, report, pairs, values, n - 1);
      var last := RowMatchesAt(records, spec, report, pairs, values, n - 1);
      RowsMatchSnoc(before, last, report.controlIds, report.treatmentIds, values, records, spec);
      rows := before + [last];
    }
  }

  lemma {:induction false} SumOfDifferences(rows: seq<Scored>, values: seq<R.Observation>)
    requires |rows| == |values| && forall k :: 0 <= k < |rows| ==> values[k].value == rows[k].after - rows[k].before
    ensures Sum(MapSeq(R.ValueOf, values)) == Sum(MapSeq(AfterOf, rows)) - Sum(MapSeq(BeforeOf, rows))
  {
    if rows != [] {
      SumOfDifferences(rows[1..], values[1..]);
      assert MapSeq(R.ValueOf, values) == [R.ValueOf(values[0])] + MapSeq(R.ValueOf, values[1..]);
      assert MapSeq(AfterOf, rows) == [AfterOf(rows[0])] + MapSeq(AfterOf, rows[1..]);
      assert MapSeq(BeforeOf, rows) == [BeforeOf(rows[0])] + MapSeq(BeforeOf, rows[1..]);
    }
  }

  /** The estimate, times the number of pairs, is what the treatments scored less what the controls scored. */
  ghost predicate Accounts(estimate: real, rows: seq<Scored>) {
    estimate * |rows| as real == Sum(MapSeq(AfterOf, rows)) - Sum(MapSeq(BeforeOf, rows))
  }

  /**
   The estimate, times the number of pairs, is what the listed treatment attempts scored less what
   the listed control attempts scored, and the interval and the test see the same differences.
   */
  lemma {:induction false} EstimateFromOutcomes(records: seq<AttemptRecord>, spec: MainSpec, render: Key -> string,
      report: EffectReport, pairs: seq<Pair>, values: seq<R.Observation>)
    returns (rows: seq<Scored>)
    requires PairRecords(records, [spec.factorId], MainNeeded(spec), render) == Ok(pairs)
    requires MainEffect(records, spec, render) == Ok(values) && Estimates(report, pairs, values, spec)
    ensures |rows| == report.effectivePairs == |report.controlIds| == |report.treatmentIds| == |values| > 0
    ensures RowsMatch(rows, report.controlIds, report.treatmentIds, values, records, spec)
    ensures Accounts(report.estimate, rows)
  {
    AlikeContrast(records, spec, render, pairs, values);
    rows := EstimatedRows(records, spec, report, pairs, values);
  }

  lemma {:induction false} AlikeContrast(records: seq<AttemptRecord>, spec: MainSpec, render: Key -> string,
      pairs: seq<Pair>, values: seq<R.Observation>)
    requires PairRecords(records, [spec.factorId], MainNeeded(spec), render) == Ok(pairs)
    requires MainEffect(records, spec, render) == Ok(values)
    ensures AlikeGroups(pairs, records, [spec.factorId], MainNeeded(spec))
    ensures Contrast(pairs, MainDifference(spec)) == Some(values)
  {
    PairsAreAlike(records, [spec.factorId], MainNeeded(spec), render, pairs);
  }

  lemma {:induction false} EstimatedRows(records: seq<AttemptRecord>, spec: MainSpec, report: EffectReport,
      pairs: seq<Pair>, values: seq<R.Observation>)
    returns (rows: seq<Scored>)
    requires AlikeGroups(pairs, records, [spec.factorId], MainNeeded(spec))
    requires Contrast(pairs, MainDifference(spec)) == Some(values) && Estimates(report, pairs, values, spec)
    ensures |rows| == report.effectivePairs == |report.controlIds| == |report.treatmentIds| == |values| > 0
    ensures RowsMatch(rows, report.controlIds, report.treatmentIds, values, records, spec)
    ensures Accounts(report.estimate, rows)
  {
    rows := IdentifiedRows(records, spec, report, pairs, values);
    EstimateIsMean(report.estimate, MapSeq(R.ValueOf, values), rows);
  }

  lemma {:induction false} EstimateIsMean(estimate: real, plain: seq<real>, rows: seq<Scored>)
    requires |rows| == |plain| > 0 && estimate == Mean(plain)
    requires Sum(plain) == Sum(MapSeq(AfterOf, rows)) - Sum(MapSeq(BeforeOf, rows))
    ensures Accounts(estimate, rows)
  {
    MeanTimes(plain, estimate, |rows|, Sum(MapSeq(AfterOf, rows)) - Sum(MapSeq(BeforeOf, rows)));
  }

  lemma {:induction false} MeanTimes(xs: seq<real>, mean: real, n: nat, total: real)
    requires |xs| == n > 0 && mean == Mean(xs) && total == Sum(xs)
    ensures mean * n as real == total
  {
    QuotientTimes(total, n as real);
  }

  lemma {:induction false} IdentifiedRows(records: seq<AttemptRecord>, spec: MainSpec, report: EffectReport,
      pairs: seq<Pair>, values: seq<R.Observation>)
    returns (rows: seq<Scored>)
    requires AlikeGroups(pairs, records, [spec.factorId], MainNeeded(spec))
    requires Contrast(pairs, MainDifference(spec)) == Some(values) && Identifies(report, pairs, spec)
    ensures |rows| == |pairs| == |values|
    ensures RowsMatch(rows, report.controlIds, report.treatmentIds, values, records, spec)
    ensures Sum(MapSeq(R.ValueOf, values)) == Sum(MapSeq(AfterOf, rows)) - Sum(MapSeq(BeforeOf, rows))
  {
    ContrastSize(pairs, MainDifference(spec), values);
    rows := ScoredPairs(records, spec, report, pairs, values, |pairs|);
    MatchedDifferences(rows, report.controlIds, report.treatmentIds, values, records, spec);
    SumOfDifferences(rows, values);
  }

  lemma {:induction false} MatchedDifferences(rows: seq<Scored>, controlIds: seq<string>, treatmentIds: seq<string>,
      values: seq<R.Observation>, records: seq<AttemptRecord>, spec: MainSpec)
    requires RowsMatch(rows, controlIds, treatmentIds, values, records, spec)
    ensures forall k :: 0 <= k < |rows| ==> values[k].value == rows[k].after - rows[k].before
  {
  }

  /** When every listed treatment attempt succeeds and every listed control attempt fails, the effect is exactly 1. */
  lemma {:induction false} CertainEffect(records: seq<AttemptRecord>, spec: MainSpec, options: Options,
      render: Key -> string, draws: Draws, report: EffectReport, pairs: seq<Pair>, values: seq<R.Observation>)
    requires PairRecords(records, [spec.factorId], MainNeeded(spec), render) == Ok(pairs)
    requires MainEffect(records, spec, render) == Ok(values) && spec.outcome.SuccessOutcome?
    requires Describes(report, pairs, values, spec, options, draws)
    requires forall r :: r in records && r.attemptId in report.treatmentIds ==> r.success
    requires forall r :: r in records && r.attemptId in report.controlIds ==> !r.success
    ensures report.estimate == report.lower == report.upper == 1.0
  {
    CertainValues(records, spec, render, report, pairs, values);
    ConstantValues(report, pairs, values, spec, options, draws);
  }

  lemma {:induction false} CertainValues(records: seq<AttemptRecord>, spec: MainSpec, render: Key -> string,
      report: EffectReport, pairs: seq<Pair>, values: seq<R.Observation>)
    requires PairRecords(records, [spec.factorId], MainNeeded(spec), render) == Ok(pairs)
    requires MainEffect(records, spec, render) == Ok(values) && spec.outcome.SuccessOutcome?
    requires Estimates(report, pairs, values, spec)
    requires forall r :: r in records && r.attemptId in report.treatmentIds ==> r.success
    requires forall r :: r in records && r.attemptId in report.controlIds ==> !r.success
    ensures Within(MapSeq(R.ValueOf, values), 1.0, 1.0)
  {
    var rows := EstimateFromOutcomes(records, spec, render, report, pairs, values);
    AllOnes(rows, report.controlIds, report.treatmentIds, values, records, spec);
  }

  lemma {:induction false} ConstantValues(report: EffectReport, pairs: seq<Pair>, values: seq<R.Observation>,
      spec: MainSpec, options: Options, draws: Draws)
    requires Describes(report, pairs, values, spec, options, draws) && Within(MapSeq(R.ValueOf, values), 1.0, 1.0)
    ensures report.estimate == report.lower == report.upper == 1.0
  {
    LeastGreatestBound(MapSeq(R.ValueOf, values));
    R.MeanWithin(MapSeq(R.ValueOf, values), 1.0, 1.0);
  }

  lemma {:induction false} AllOnes(rows: seq<Scored>, controlIds: seq<string>, treatmentIds: seq<string>,
      values: seq<R.Observation>, records: seq<AttemptRecord>, spec: MainSpec)
    requires RowsMatch(rows, controlIds, treatmentIds, values, records, spec) && spec.outcome.SuccessOutcome?
    requires |rows| == |values| == |controlIds| == |treatmentIds|
    requires forall r :: r in records && r.attemptId in treatmentIds ==> r.success
    requires forall r :: r in records && r.attemptId in controlIds ==> !r.success
    ensures Within(MapSeq(R.ValueOf, values), 1.0, 1.0)
  {
    forall k | 0 <= k < |values| ensures R.ValueOf(values[k]) == 1.0 {
      var row := rows[k];
      assert RowMatches(row, controlIds[k], treatmentIds[k], values[k], records, spec);
      assert row.control.attemptId in controlIds && row.treatment.attemptId in treatmentIds;
    }
  }
}
