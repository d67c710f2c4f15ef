/**
 The audit of human calibration evidence: which annotation and adjudication files are
 admitted, how far the annotators agree, and when the protocol counts as complete.
 */
module CalibrationAudit {
  import opened Prelude
  import opened Sorting

  datatype Assignment = Assignment(pseudonym: string, assignmentId: string)

  datatype Target = Target(targetId: string, runId: string, digest: string, assignments: seq<Assignment>)

  datatype Annotation = Annotation(targetId: string, runId: string, pseudonym: string, assignmentId: string,
                                   scores: map<string, real>)

  /** finalScores is the set of dimensions that an adjudication scores. */
  datatype Adjudication = Adjudication(targetId: string, runId: string, pseudonym: string, finalScores: set<string>,
                                       digest: string)

  /** One file: unreadable or off its schema, or a record. */
  datatype Source<T> = Rejected | Read(record: T)

  datatype Issue =
    | BadFile | UnknownTarget | WrongRun | IdentityAddress | NotAssigned | Duplicate | WrongDimensions
    | AlreadyAdjudicated | NotPermitted | WrongDigest

  const DIMENSIONS := ["task_success", "evidence_grounding", "schema_adherence", "safety_boundary", "actionability"]
  const CONFLICT_THRESHOLD := 0.20

  lemma {:induction false} DimensionsDistinct()
    ensures Distinct(DIMENSIONS)
  {
    var lengths := [12, 18, 16, 15, 13];
    assert forall k :: 0 <= k < |DIMENSIONS| ==> |DIMENSIONS[k]| == lengths[k];
    forall i, j | 0 <= i < j < |DIMENSIONS| ensures DIMENSIONS[i] != DIMENSIONS[j] {
      assert lengths[i] != lengths[j];
    }
  }

  // ----- The packet -----

  /** `{target["target_id"]: target}`: a repeated id keeps its first place and its last value. */
  function TargetMap(targets: seq<Target>): map<string, Target> {
    if targets == [] then map[]
    else TargetMap(targets[..|targets| - 1])[targets[|targets| - 1].targetId := targets[|targets| - 1]]
  }

  function TargetOrder(targets: seq<Target>): (order: seq<string>)
    ensures Distinct(order)
    ensures forall id :: id in order <==> id in TargetMap(targets)
    ensures |order| <= |targets|
  {
    if targets == [] then []
    else
      var before, id := TargetOrder(targets[..|targets| - 1]), targets[|targets| - 1].targetId;
      if id in before then before else before + [id]
  }

  /** `expected_assignments.get((target_id, pseudonym))`. */
  function AssignedId(assignments: seq<Assignment>, pseudonym: string): Option<string> {
    if assignments == [] then None
    else if assignments[|assignments| - 1].pseudonym == pseudonym then Some(assignments[|assignments| - 1].assignmentId)
    else AssignedId(assignments[..|assignments| - 1], pseudonym)
  }

  lemma {:induction false} AssignedExactly(assignments: seq<Assignment>, pseudonym: string)
    ensures AssignedId(assignments, pseudonym).Some?
            <==> exists k :: 0 <= k < |assignments| && assignments[k].pseudonym == pseudonym
  {
    if assignments != [] {
      var before := assignments[..|assignments| - 1];
      AssignedExactly(before, pseudonym);
      if k :| 0 <= k < |assignments| && assignments[k].pseudonym == pseudonym {
        assert k == |before| || before[k] == assignments[k];
      }
    }
  }

  // ----- Admission of files -----

  datatype Intake<T> = Intake(accepted: seq<T>, issues: seq<Issue>)

  /** Files in order; check looks at what was accepted before. */
  function Collect<T>(check: (seq<T>, T) -> Option<Issue>, sources: seq<Source<T>>): Intake<T> {
    if sources == [] then Intake([], [])
    else Admit(check, Collect(check, sources[..|sources| - 1]), sources[|sources| - 1])
  }

  function Admit<T>(check: (seq<T>, T) -> Option<Issue>, before: Intake<T>, source: Source<T>): Intake<T> {
    match source
    case Rejected => before.(issues := before.issues + [BadFile])
    case Read(record) =>
      var issue := check(before.accepted, record);
      if issue.Some? then before.(issues := before.issues + [issue.value])
        else before.(accepted := before.accepted + [record])
  }

  lemma {:induction false} CollectSnoc<T>(check: (seq<T>, T) -> Option<Issue>, sources: seq<Source<T>>,
      source: Source<T>)
    ensures Collect(check, sources + [source]) == Admit(check, Collect(check, sources), source)
  {
    assert (sources + [source])[..|sources|] == sources;
  }

  predicate AllRead<T>(sources: seq<Source<T>>) {
    forall k :: 0 <= k < |sources| ==> sources[k].Read?
  }

  function Records<T>(sources: seq<Source<T>>): seq<T>
    requires AllRead(sources)
  {
    seq(|sources|, k requires 0 <= k < |sources| => sources[k].record)
  }

  /** Every record passes its check against the records before it. */
  predicate AllPass<T>(check: (seq<T>, T) -> Option<Issue>, records: seq<T>) {
    forall k :: 0 <= k < |records| ==> check(records[..k], records[k]).None?
  }

  /** Every file is accounted for, and there is no issue exactly when every file is a record that passes. */
  lemma {:induction false} CollectExactly<T>(check: (seq<T>, T) -> Option<Issue>, sources: seq<Source<T>>)
    ensures |Collect(check, sources).accepted| + |Collect(check, sources).issues| == |sources|
    ensures Collect(check, sources).issues == [] <==> AllRead(sources) && AllPass(check, Records(sources))
    ensures Collect(check, sources).issues == [] ==> Collect(check, sources).accepted == Records(sources)
  {
    if sources != [] {
      var before, last := sources[..|sources| - 1], sources[|sources| - 1];
      CollectExactly(check, before);
      assert sources == before + [last];
      if AllRead(before) && last.Read? {
        PassSnoc(check, Records(before), last.record);
        assert Records(sources) == Records(before) + [last.record];
      }
    }
  }

  lemma {:induction false} PassSnoc<T>(check: (seq<T>, T) -> Option<Issue>, records: seq<T>, record: T)
    ensures AllPass(check, records + [record]) <==> AllPass(check, records) && check(records, record).None?
  {
    var all := records + [record];
    assert all[..|records|] == records && all[|records|] == record;
    assert forall k :: 0 <= k < |records| ==> all[..k] == records[..k] && all[k] == records[k];
    if AllPass(check, all) {
      forall k | 0 <= k < |records| ensures check(records[..k], records[k]).None? {
        assert check(all[..k], all[k]).None?;
      }
      assert check(all[..|records|], all[|records|]).None?;
    }
  }

  // ----- Annotations -----

  predicate Binds(targets: map<string, Target>, a: Annotation) {
    && a.targetId in targets
    && a.runId == targets[a.targetId].runId
    && '@' !in a.pseudonym
    && AssignedId(targets[a.targetId].assignments, a.pseudonym) == Some(a.assignmentId)
    && a.scores.Keys == Elements(DIMENSIONS)
  }

  predicate Repeats(accepted: seq<Annotation>, a: Annotation) {
    exists k :: 0 <= k < |accepted| &&
      (accepted[k].assignmentId == a.assignmentId ||
        (accepted[k].targetId == a.targetId && accepted[k].pseudonym == a.pseudonym))
  }

  /** The checks on one annotation, in the order of the program. */
  function AnnotationCheck(targets: map<string, Target>): (seq<Annotation>, Annotation) -> Option<Issue> {
    (accepted: seq<Annotation>, a: Annotation) =>
      if a.targetId !in targets then Some(UnknownTarget)
      else if a.runId != targets[a.targetId].runId then Some(WrongRun)
      else if '@' in a.pseudonym then Some(IdentityAddress)
      else if AssignedId(targets[a.targetId].assignments, a.pseudonym) != Some(a.assignmentId) then Some(NotAssigned)
      else if Repeats(accepted, a) then Some(Duplicate)
      else if a.scores.Keys != Elements(DIMENSIONS) then Some(WrongDimensions)
      else None
  }

  function ForTarget(id: string): Annotation -> bool { (a: Annotation) => a.targetId == id }

  /** `annotations_by_target[id]`. */
  function RowsOf(accepted: seq<Annotation>, id: string): seq<Annotation> { Keep(ForTarget(id), accepted) }

  function AssignmentIds(accepted: seq<Annotation>): set<string> { set a | a in accepted :: a.assignmentId }

  function PairsSeen(accepted: seq<Annotation>): set<(string, string)> {
    set a | a in accepted :: (a.targetId, a.pseudonym)
  }

  /** The dictionary of accepted rows, with its keys in insertion order. */
  ghost predicate Filed(accepted: seq<Annotation>, order: seq<string>, byTarget: map<string, seq<Annotation>>) {
    && Distinct(order)
    && (forall id :: id in order <==> id in byTarget)
    && (forall id :: id in byTarget ==> byTarget[id] == RowsOf(accepted, id))
    && (forall id :: id !in byTarget ==> RowsOf(accepted, id) == [])
  }

  lemma {:induction false} RowsSnoc(accepted: seq<Annotation>, a: Annotation, id: string)
    ensures RowsOf(accepted + [a], id) == RowsOf(accepted, id) + (if a.targetId == id then [a] else [])
  {
    KeepSnoc(ForTarget(id), accepted, a);
  }

  method FileAnnotation(a: Annotation, order: seq<string>, byTarget: map<string, seq<Annotation>>,
      ghost accepted: seq<Annotation>)
    returns (order': seq<string>, byTarget': map<string, seq<Annotation>>)
    requires Filed(accepted, order, byTarget)
    ensures Filed(accepted + [a], order', byTarget')
  {
    order', byTarget' := order, byTarget;
    if a.targetId !in byTarget' {
      byTarget' := byTarget'[a.targetId := []];
      order' := order' + [a.targetId];
    }
    assert byTarget'[a.targetId] == RowsOf(accepted, a.targetId);
    byTarget' := byTarget'[a.targetId := byTarget'[a.targetId] + [a]];
    FiledSnoc(accepted, a, order, byTarget, order', byTarget');
  }

  lemma {:induction false} FiledSnoc(accepted: seq<Annotation>, a: Annotation, order: seq<string>,
      byTarget: map<string, seq<Annotation>>, order': seq<string>, byTarget': map<string, seq<Annotation>>)
    requires Filed(accepted, order, byTarget) && byTarget' == byTarget[a.targetId := RowsOf(accepted, a.targetId) + [a]]
    requires order' == if a.targetId in byTarget then order else order + [a.targetId]
    ensures Filed(accepted + [a], order', byTarget')
  {
    var all := accepted + [a];
    forall id | id in byTarget' ensures byTarget'[id] == RowsOf(all, id) {
      RowsSnoc(accepted, a, id);
    }
    forall id | id !in byTarget' ensures RowsOf(all, id) == [] {
      RowsSnoc(accepted, a, id);
    }
  }

  method CheckAnnotation(targets: map<string, Target>, seenAssignments: set<string>,
      seenPairs: set<(string, string)>, a: Annotation, ghost accepted: seq<Annotation>)
    returns (issue: Option<Issue>)
    requires seenAssignments == AssignmentIds(accepted) && seenPairs == PairsSeen(accepted)
    ensures issue == AnnotationCheck(targets)(accepted, a)
  {
    if a.targetId !in targets {
      return Some(UnknownTarget);
    }
    var target := targets[a.targetId];
    if a.runId != target.runId {
      return Some(WrongRun);
    }
    if '@' in a.pseudonym {
      return Some(IdentityAddress);
    }
    if AssignedId(target.assignments, a.pseudonym) != Some(a.assignmentId) {
      return Some(NotAssigned);
    }
    if a.assignmentId in seenAssignments || (a.targetId, a.pseudonym) in seenPairs {
      return Some(Duplicate);
    }
    if a.scores.Keys != Elements(DIMENSIONS) {
      return Some(WrongDimensions);
    }
    return None;
  }

  /** The first loop of `_agreement_report`. */
  method CollectAnnotations(targets: map<string, Target>, sources: seq<Source<Annotation>>)
    returns (order: seq<string>, byTarget: map<string, seq<Annotation>>, errors: seq<Issue>)
    ensures errors == Collect(AnnotationCheck(targets), sources).issues
    ensures Filed(Collect(AnnotationCheck(targets), sources).accepted, order, byTarget)
  {
    order, byTarget, errors := [], map[], [];
    var seenAssignments: set<string>, seenPairs: set<(string, string)> := {}, {};
    ghost var check := AnnotationCheck(targets);
    ghost var intake := Intake([], []);
    for k := 0 to |sources|
      invariant intake == Collect(check, sources[..k]) && errors == intake.issues
      invariant Filed(intake.accepted, order, byTarget)
      invariant seenAssignments == AssignmentIds(intake.accepted) && seenPairs == PairsSeen(intake.accepted)
    {
      TakeMore(sources, k);
      CollectSnoc(check, sources[..k], sources[k]);
      ghost var accepted := intake.accepted;
      intake := Admit(check, intake, sources[k]);
      if sources[k].Rejected? {
        errors := errors + [BadFile];
        continue;
      }
      var a := sources[k].record;
      var issue := CheckAnnotation(targets, seenAssignments, seenPairs, a, accepted);
      if issue.Some? {
        errors := errors + [issue.value];
        continue;
      }
      seenAssignments := seenAssignments + {a.assignmentId};
      seenPairs := seenPairs + {(a.targetId, a.pseudonym)};
      order, byTarget := FileAnnotation(a, order, byTarget, accepted);
      SeenSnoc(accepted, a);
    }
    assert sources[..|sources|] == sources;
  }

  lemma {:induction false} SeenSnoc(accepted: seq<Annotation>, a: Annotation)
    ensures AssignmentIds(accepted + [a]) == AssignmentIds(accepted) + {a.assignmentId}
    ensures PairsSeen(accepted + [a]) == PairsSeen(accepted) + {(a.targetId, a.pseudonym)}
  {
  }

  // ----- Counting -----

  function RowCounts(accepted: seq<Annotation>, order: seq<string>): nat {
    if order == [] then 0 else |RowsOf(accepted, order[0])| + RowCounts(accepted, order[1..])
  }

  lemma {:induction false} RowCountsSnoc(accepted: seq<Annotation>, a: Annotation, order: seq<string>)
    requires Distinct(order)
    ensures RowCounts(accepted + [a], order) == RowCounts(accepted, order) + (if a.targetId in order then 1 else 0)
  {
    if order != [] {
      RowsSnoc(accepted, a, order[0]);
      RowCountsSnoc(accepted, a, order[1..]);
    }
  }

  /** The rows of all targets together are the accepted annotations. */
  lemma {:induction false} RowsHoldEverything(accepted: seq<Annotation>, order: seq<string>)
    requires Distinct(order) && forall k :: 0 <= k < |accepted| ==> accepted[k].targetId in order
    ensures RowCounts(accepted, order) == |accepted|
    decreases |accepted|, |order|
  {
    if accepted != [] {
      var before := accepted[..|accepted| - 1];
      assert accepted == before + [accepted[|accepted| - 1]];
      RowsHoldEverything(before, order);
      RowCountsSnoc(before, accepted[|accepted| - 1], order);
    } else if order != [] {
      RowsHoldEverything(accepted, order[1..]);
    }
  }

  /** `sum(len(rows) for rows in annotations_by_target.values())`. */
  method CountAnnotations(order: seq<string>, byTarget: map<string, seq<Annotation>>, ghost accepted: seq<Annotation>)
    returns (total: nat)
    requires Filed(accepted, order, byTarget)
    ensures total == |accepted|
  {
    total := 0;
    for k := 0 to |order|
      invariant total + RowCounts(accepted, order[k..]) == RowCounts(accepted, order)
    {
      assert order[k] in order && order[k..][1..] == order[k + 1..];
      total := total + |byTarget[order[k]]|;
    }
    assert order[|order|..] == [];
    forall k | 0 <= k < |accepted| ensures accepted[k].targetId in order {
      KeepMembers(ForTarget(accepted[k].targetId), accepted);
      assert accepted[k] in RowsOf(accepted, accepted[k].targetId);
    }
    RowsHoldEverything(accepted, order);
  }

  // ----- Agreement -----

  function ScoreOn(dimension: string): Annotation -> real {
    (a: Annotation) => if dimension in a.scores then a.scores[dimension] else 0.0
  }

  type RowPair = (Annotation, Annotation)

  function Delta(dimension: string, p: RowPair): real {
    AbsReal(ScoreOn(dimension)(p.0) - ScoreOn(dimension)(p.1))
  }

  function Same(dimension: string): RowPair -> bool { (p: RowPair) => Delta(dimension, p) == 0.0 }

  function Near(dimension: string): RowPair -> bool { (p: RowPair) => Delta(dimension, p) <= CONFLICT_THRESHOLD }

  function TotalDelta(dimension: string, ps: seq<RowPair>): real {
    if ps == [] then 0.0 else TotalDelta(dimension, ps[..|ps| - 1]) + Delta(dimension, ps[|ps| - 1])
  }

  datatype Tally = Tally(pairs: nat, exact: nat, within: nat, absoluteDelta: real)

  function TallyOf(dimension: string, ps: seq<RowPair>): Tally {
    Tally(|ps|, Count(Same(dimension), ps), Count(Near(dimension), ps), TotalDelta(dimension, ps))
  }

  /** `combinations(rows, 2)`. */
  function Combinations(rows: seq<Annotation>): seq<RowPair> {
    if rows == [] then [] else With(rows[0], rows[1..]) + Combinations(rows[1..])
  }

  function With(first: Annotation, rest: seq<Annotation>): seq<RowPair> {
    seq(|rest|, k requires 0 <= k < |rest| => (first, rest[k]))
  }

  function AllPairs(accepted: seq<Annotation>, completed: seq<string>): seq<RowPair> {
    if completed == [] then []
    else AllPairs(accepted, completed[..|completed| - 1]) + Combinations(RowsOf(accepted, completed[|completed| - 1]))
  }

  predicate Disputes(dimension: string, rows: seq<Annotation>) {
    rows != [] && Greatest(MapSeq(ScoreOn(dimension), rows)) - Least(MapSeq(ScoreOn(dimension),
      rows)) > CONFLICT_THRESHOLD
  }

  function Disputed(rows: seq<Annotation>): seq<string> {
    Keep((dimension: string) => Disputes(dimension, rows), DIMENSIONS)
  }

  /** Every pair of rows appears once, so n rows give n(n - 1)/2 pairs. */
  lemma {:induction false} CombinationsMembers(rows: seq<Annotation>)
    ensures forall i, j :: 0 <= i < j < |rows| ==> (rows[i], rows[j]) in Combinations(rows)
    ensures forall p :: p in Combinations(rows) ==> p.0 in rows && p.1 in rows
    ensures 2 * |Combinations(rows)| == |rows| * (|rows| - 1)
  {
    if rows != [] {
      var first, rest := rows[0], rows[1..];
      CombinationsMembers(rest);
      assert rows == [first] + rest;
      PairCountStep(|rest|);
      forall i, j | 0 <= i < j < |rows| ensures (rows[i], rows[j]) in Combinations(rows) {
        if i == 0 {
          assert With(first, rest)[j - 1] == (rows[i], rows[j]);
        } else {
          assert rows[i] == rest[i - 1] && rows[j] == rest[j - 1];
        }
      }
    }
  }

  lemma {:induction false} PairCountStep(n: nat)
    ensures 2 * n + n * (n - 1) == (n + 1) * n
  {
  }

  /** The spread of a target stays within the threshold exactly when all its pairs do. */
  lemma {:induction false} SpreadIsPairwise(dimension: string, rows: seq<Annotation>)
    ensures Disputes(dimension, rows) <==> exists p :: p in Combinations(rows) && !Near(dimension)(p)
  {
    var scores := MapSeq(ScoreOn(dimension), rows);
    CombinationsMembers(rows);
    if rows != [] {
      LeastGreatestBound(scores);
      if Disputes(dimension, rows) {
        var p := ExtremePair(dimension, rows);
        assert p in Combinations(rows);
      } else {
        forall p | p in Combinations(rows) ensures Near(dimension)(p) {
          WithinSpread(dimension, rows, p);
        }
      }
    }
  }

  lemma {:induction false} ExtremePair(dimension: string, rows: seq<Annotation>) returns (p: RowPair)
    requires Disputes(dimension, rows)
    requires forall i, j :: 0 <= i < j < |rows| ==> (rows[i], rows[j]) in Combinations(rows)
    ensures p in Combinations(rows) && !Near(dimension)(p)
  {
    var scores := MapSeq(ScoreOn(dimension), rows);
    LeastGreatestBound(scores);
    var low :| 0 <= low < |rows| && scores[low] == Least(scores);
    var high :| 0 <= high < |rows| && scores[high] == Greatest(scores);
    p := if low < high then (rows[low], rows[high]) else (rows[high], rows[low]);
  }

  lemma {:induction false} WithinSpread(dimension: string, rows: seq<Annotation>, p: RowPair)
    requires rows != [] && !Disputes(dimension, rows) && p.0 in rows && p.1 in rows
    ensures Near(dimension)(p)
  {
    var scores := MapSeq(ScoreOn(dimension), rows);
    LeastGreatestBound(scores);
    var i :| 0 <= i < |rows| && rows[i] == p.0;
    var j :| 0 <= j < |rows| && rows[j] == p.1;
    assert scores[i] == ScoreOn(dimension)(p.0) && scores[j] == ScoreOn(dimension)(p.1);
  }

  predicate PairFrom(p: RowPair, accepted: seq<Annotation>, completed: seq<string>) {
    exists k :: 0 <= k < |completed| && p in Combinations(RowsOf(accepted, completed[k]))
  }

  lemma {:induction false} AllPairsMembers(accepted: seq<Annotation>, completed: seq<string>, p: RowPair)
    ensures p in AllPairs(accepted, completed) <==> PairFrom(p, accepted, completed)
  {
    if completed != [] {
      var before, last := completed[..|completed| - 1], completed[|completed| - 1];
      AllPairsMembers(accepted, before, p);
      PairFromSnoc(p, accepted, before, last);
      assert completed == before + [last];
    }
  }

  lemma {:induction false} PairFromSnoc(p: RowPair, accepted: seq<Annotation>, before: seq<string>, last: string)
    ensures PairFrom(p, accepted, before + [last])
            <==> PairFrom(p, accepted, before) || p in Combinations(RowsOf(accepted, last))
  {
    var all := before + [last];
    assert all[|before|] == last && forall k :: 0 <= k < |before| ==> all[k] == before[k];
    if PairFrom(p, accepted, before) {
      var k :| 0 <= k < |before| && p in Combinations(RowsOf(accepted, before[k]));
      assert p in Combinations(RowsOf(accepted, all[k]));
    }
  }

  /**
   A dimension's within-threshold count equals its pair count exactly when no completed target
   disputes the dimension.
   */
  lemma {:induction false} WithinExactlyWhenUndisputed(dimension: string, accepted: seq<Annotation>,
      completed: seq<string>)
    ensures var tally := TallyOf(dimension, AllPairs(accepted, completed));
            && tally.exact <= tally.within <= tally.pairs
            && (tally.within == tally.pairs
              <==> forall k :: 0 <= k < |completed| ==> !Disputes(dimension, RowsOf(accepted, completed[k])))
  {
    var ps := AllPairs(accepted, completed);
    CountExtremes(Near(dimension), ps);
    CountImplies(Same(dimension), Near(dimension), ps);
    if p :| p in ps && !Near(dimension)(p) {
      AllPairsMembers(accepted, completed, p);
      var k :| 0 <= k < |completed| && p in Combinations(RowsOf(accepted, completed[k]));
      SpreadIsPairwise(dimension, RowsOf(accepted, completed[k]));
    }
    if k :| 0 <= k < |completed| && Disputes(dimension, RowsOf(accepted, completed[k])) {
      SpreadIsPairwise(dimension, RowsOf(accepted, completed[k]));
      var p :| p in Combinations(RowsOf(accepted, completed[k])) && !Near(dimension)(p);
      AllPairsMembers(accepted, completed, p);
    }
  }

  // ----- The scoring loops -----

  ghost predicate Tallied(tallies: map<string, Tally>, dimensions: seq<string>, ps: seq<RowPair>) {
    && tallies.Keys == Elements(dimensions)
    && forall d :: d in tallies ==> tallies[d] == TallyOf(d, ps)
  }

  lemma {:induction false} TallySnoc(dimension: string, ps: seq<RowPair>, p: RowPair)
    ensures var before, after := TallyOf(dimension, ps), TallyOf(dimension, ps + [p]);
            && after.pairs == before.pairs + 1
            && after.exact == before.exact + (if Delta(dimension, p) == 0.0 then 1 else 0)
            && after.within == before.within + (if Delta(dimension, p) <= CONFLICT_THRESHOLD then 1 else 0)
            && after.absoluteDelta == before.absoluteDelta + Delta(dimension, p)
  {
    assert (ps + [p])[..|ps|] == ps;
    CountAppend(Same(dimension), ps, [p]);
    CountAppend(Near(dimension), ps, [p]);
  }

  /** The loop over the dimensions for one pair of rows. */
  method TallyPair(tallies: map<string, Tally>, dimensions: seq<string>, p: RowPair, ghost ps: seq<RowPair>)
    returns (tallies': map<string, Tally>)
    requires Distinct(dimensions) && Tallied(tallies, dimensions, ps)
    ensures Tallied(tallies', dimensions, ps + [p])
  {
    tallies' := tallies;
    for k := 0 to |dimensions|
      invariant tallies'.Keys == Elements(dimensions)
      invariant forall m :: 0 <= m < k ==> tallies'[dimensions[m]] == TallyOf(dimensions[m], ps + [p])
      invariant forall m :: k <= m < |dimensions| ==> tallies'[dimensions[m]] == TallyOf(dimensions[m], ps)
    {
      var d := dimensions[k];
      var summary := TallyDelta(tallies'[d], Delta(d, p), d, p, ps);
      tallies' := tallies'[d := summary];
    }
  }

  method TallyDelta(before: Tally, delta: real, ghost d: string, ghost p: RowPair, ghost ps: seq<RowPair>)
    returns (summary: Tally)
    requires before == TallyOf(d, ps) && delta == Delta(d, p)
    ensures summary == TallyOf(d, ps + [p])
  {
    TallySnoc(d, ps, p);
    summary := before.(pairs := before.pairs + 1, absoluteDelta := before.absoluteDelta + delta);
    if delta == 0.0 {
      summary := summary.(exact := summary.exact + 1);
    }
    if delta <= CONFLICT_THRESHOLD {
      summary := summary.(within := summary.within + 1);
    }
  }

  /** The loop over the pairs of one completed target. */
  method TallyTarget(tallies: map<string, Tally>, dimensions: seq<string>, rows: seq<Annotation>,
      ghost ps: seq<RowPair>)
    returns (tallies': map<string, Tally>)
    requires Distinct(dimensions) && Tallied(tallies, dimensions, ps)
    ensures Tallied(tallies', dimensions, ps + Combinations(rows))
  {
    tallies' := tallies;
    var combinations := Combinations(rows);
    assert ps + combinations[..0] == ps;
    for k := 0 to |combinations|
      invariant Tallied(tallies', dimensions, ps + combinations[..k])
    {
      tallies' := TallyPair(tallies', dimensions, combinations[k], ps + combinations[..k]);
      assert ps + combinations[..k + 1] == ps + combinations[..k] + [combinations[k]];
    }
    assert combinations[..|combinations|] == combinations;
  }

  function Pseudonyms(rows: seq<Annotation>): set<string> { set a | a in rows :: a.pseudonym }

  function AssignedPseudonyms(target: Target): set<string> { set a | a in target.assignments :: a.pseudonym }

  function IsCompleted(targets: map<string, Target>, accepted: seq<Annotation>): string -> bool {
    (id: string) => id in targets && RowsOf(accepted, id) != [] &&
      Pseudonyms(RowsOf(accepted, id)) == AssignedPseudonyms(targets[id])
  }

  function IsIncomplete(targets: map<string, Target>, accepted: seq<Annotation>): string -> bool {
    (id: string) => id in targets && RowsOf(accepted, id) != [] &&
      Pseudonyms(RowsOf(accepted, id)) != AssignedPseudonyms(targets[id])
  }

  function Conflicts(accepted: seq<Annotation>, completed: seq<string>): map<string, seq<string>> {
    map id | id in completed && Disputed(RowsOf(accepted, id)) != [] :: Disputed(RowsOf(accepted, id))
  }

  lemma {:induction false} CompleteOne(accepted: seq<Annotation>, completed: seq<string>, id: string)
    ensures var disputed := Disputed(RowsOf(accepted, id));
            Conflicts(accepted, completed + [id]) == if disputed == [] then Conflicts(accepted, completed)
              else Conflicts(accepted, completed)[id := disputed]
  {
    var disputed, before, grown := Disputed(RowsOf(accepted, id)), Conflicts(accepted, completed),
      Conflicts(accepted, completed + [id]);
    var expected := if disputed == [] then before else before[id := disputed];
    forall other ensures other in grown <==> other in expected {
      assert other in completed + [id] <==> other in completed || other == id;
    }
  }

  lemma {:induction false} PairsSnoc(accepted: seq<Annotation>, completed: seq<string>, id: string)
    ensures AllPairs(accepted, completed + [id]) == AllPairs(accepted, completed) + Combinations(RowsOf(accepted, id))
  {
    assert (completed + [id])[..|completed|] == completed;
  }

  method DisputedDimensions(dimensions: seq<string>, rows: seq<Annotation>) returns (disputed: seq<string>)
    requires rows != []
    ensures disputed == Keep((dimension: string) => Disputes(dimension, rows), dimensions)
  {
    disputed := [];
    ghost var f := (dimension: string) => Disputes(dimension, rows);
    for k := 0 to |dimensions|
      invariant disputed == Keep(f, dimensions[..k])
    {
      TakeMore(dimensions, k);
      KeepSnoc(f, dimensions[..k], dimensions[k]);
      var scores := MapSeq(ScoreOn(dimensions[k]), rows);
      if Greatest(scores) - Least(scores) > CONFLICT_THRESHOLD {
        disputed := disputed + [dimensions[k]];
      }
    }
    assert dimensions[..|dimensions|] == dimensions;
  }

  /** One completed target: its pairs are tallied and its disputed dimensions recorded. */
  method CompleteTarget(id: string, rows: seq<Annotation>, tallies: map<string, Tally>,
      conflicts: map<string, seq<string>>, ghost completed: seq<string>, ghost accepted: seq<Annotation>)
    returns (tallies': map<string, Tally>, conflicts': map<string, seq<string>>)
    requires rows == RowsOf(accepted, id) != [] && conflicts == Conflicts(accepted, completed)
    requires Tallied(tallies, DIMENSIONS, AllPairs(accepted, completed))
    ensures conflicts' == Conflicts(accepted, completed + [id])
    ensures Tallied(tallies', DIMENSIONS, AllPairs(accepted, completed + [id]))
  {
    DimensionsDistinct();
    CompleteOne(accepted, completed, id);
    PairsSnoc(accepted, completed, id);
    tallies' := TallyTarget(tallies, DIMENSIONS, rows, AllPairs(accepted, completed));
    var disputed := DisputedDimensions(DIMENSIONS, rows);
    conflicts' := if disputed == [] then conflicts else conflicts[id := disputed];
  }

  /** The targets sorted so far. */
  ghost predicate Scored(order: seq<string>, targets: map<string, Target>, accepted: seq<Annotation>,
      tallies: map<string, Tally>, completed: seq<string>, incomplete: seq<string>,
      conflicts: map<string, seq<string>>) {
    && completed == Keep(IsCompleted(targets, accepted), order)
    && incomplete == Keep(IsIncomplete(targets, accepted), order)
    && conflicts == Conflicts(accepted, completed)
    && Tallied(tallies, DIMENSIONS, AllPairs(accepted, completed))
  }

  method ScoreTarget(id: string, target: Target, rows: seq<Annotation>, tallies: map<string, Tally>,
      completed: seq<string>, incomplete: seq<string>, conflicts: map<string, seq<string>>,
      ghost order: seq<string>, ghost targets: map<string, Target>, ghost accepted: seq<Annotation>)
    returns (tallies': map<string, Tally>, completed': seq<string>, incomplete': seq<string>,
             conflicts': map<string, seq<string>>)
    requires Scored(order, targets, accepted, tallies, completed, incomplete, conflicts)
    requires id in targets && targets[id] == target && rows == RowsOf(accepted, id)
    ensures Scored(order + [id], targets, accepted, tallies', completed', incomplete', conflicts')
  {
    tallies', completed', incomplete', conflicts' := tallies, completed, incomplete, conflicts;
    KeepSnoc(IsCompleted(targets, accepted), order, id);
    KeepSnoc(IsIncomplete(targets, accepted), order, id);
    if rows == [] {
      return;
    }
    if Pseudonyms(rows) != AssignedPseudonyms(target) {
      incomplete' := incomplete' + [id];
      return;
    }
    completed' := completed' + [id];
    tallies', conflicts' := CompleteTarget(id, rows, tallies, conflicts, completed, accepted);
  }

  /** The second loop of `_agreement_report`, over the targets of the packet. */
  method ScoreTargets(order: seq<string>, targets: map<string, Target>, byTarget: map<string, seq<Annotation>>,
      ghost filed: seq<string>, ghost accepted: seq<Annotation>)
    returns (tallies: map<string, Tally>, completed: seq<string>, incomplete: seq<string>,
             conflicts: map<string, seq<string>>)
    requires Filed(accepted, filed, byTarget) && forall id :: id in order ==> id in targets
    ensures Scored(order, targets, accepted, tallies, completed, incomplete, conflicts)
  {
    tallies := map d | d in DIMENSIONS :: Tally(0, 0, 0, 0.0);
    completed, incomplete, conflicts := [], [], map[];
    for k := 0 to |order|
      invariant Scored(order[..k], targets, accepted, tallies, completed, incomplete, conflicts)
    {
      TakeMore(order, k);
      var id := order[k];
      var rows := if id in byTarget then byTarget[id] else [];
      tallies, completed, incomplete, conflicts :=
        ScoreTarget(id, targets[id], rows, tallies, completed, incomplete, conflicts, order[..k], targets, accepted);
    }
    assert order[..|order|] == order;
  }

  // ----- Adjudications -----

  function ConflictSet(conflicts: map<string, seq<string>>, id: string): set<string> {
    if id in conflicts then Elements(conflicts[id]) else {}
  }

  function AdjudicatedBy(accepted: seq<Adjudication>): set<string> { set j | j in accepted :: j.targetId }

  /** What an adjudication must meet on its own. */
  predicate Settles(targets: map<string, Target>, conflicts: map<string, seq<string>>, j: Adjudication) {
    && j.targetId in targets
    && j.runId == targets[j.targetId].runId
    && '@' !in j.pseudonym
    && ConflictSet(conflicts, j.targetId) != {}
    && j.finalScores == ConflictSet(conflicts, j.targetId)
    && j.digest == targets[j.targetId].digest
  }

  /** The checks on one adjudication, in the order of the program. */
  function AdjudicationCheck(targets: map<string, Target>, conflicts: map<string, seq<string>>): (seq<Adjudication>,
        Adjudication) -> Option<Issue> {
    (accepted: seq<Adjudication>, j: Adjudication) =>
      if j.targetId !in targets then Some(UnknownTarget)
      else if j.targetId in AdjudicatedBy(accepted) then Some(AlreadyAdjudicated)
      else if j.runId != targets[j.targetId].runId then Some(WrongRun)
      else if '@' in j.pseudonym then Some(IdentityAddress)
      else if ConflictSet(conflicts, j.targetId) == {} then Some(NotPermitted)
      else if j.finalScores != ConflictSet(conflicts, j.targetId) then Some(WrongDimensions)
      else if j.digest != targets[j.targetId].digest then Some(WrongDigest)
      else None
  }

  /** The third loop of `_agreement_report`. */
  method CollectAdjudications(targets: map<string, Target>, conflicts: map<string, seq<string>>,
      sources: seq<Source<Adjudication>>)
    returns (adjudicated: set<string>, errors: seq<Issue>)
    ensures errors == Collect(AdjudicationCheck(targets, conflicts), sources).issues
    ensures adjudicated == AdjudicatedBy(Collect(AdjudicationCheck(targets, conflicts), sources).accepted)
  {
    adjudicated, errors := {}, [];
    ghost var check := AdjudicationCheck(targets, conflicts);
    ghost var intake := Intake([], []);
    for k := 0 to |sources|
      invariant intake == Collect(check, sources[..k])
      invariant errors == intake.issues && adjudicated == AdjudicatedBy(intake.accepted)
    {
      TakeMore(sources, k);
      CollectSnoc(check, sources[..k], sources[k]);
      intake := Admit(check, intake, sources[k]);
      if sources[k].Rejected? {
        errors := errors + [BadFile];
        continue;
      }
      var j := sources[k].record;
      if j.targetId !in targets {
        errors := errors + [UnknownTarget];
      } else if j.targetId in adjudicated {
        errors := errors + [AlreadyAdjudicated];
      } else if j.runId != targets[j.targetId].runId {
        errors := errors + [WrongRun];
      } else if '@' in j.pseudonym {
        errors := errors + [IdentityAddress];
      } else {
        var expected := ConflictSet(conflicts, j.targetId);
        if expected == {} {
          errors := errors + [NotPermitted];
        } else if j.finalScores != expected {
          errors := errors + [WrongDimensions];
        } else if j.digest != targets[j.targetId].digest {
          errors := errors + [WrongDigest];
        } else {
          adjudicated := adjudicated + {j.targetId};
        }
      }
    }
    assert sources[..|sources|] == sources;
  }

  // ----- The report and the status -----

  datatype Evidence = Evidence(targets: seq<Target>, annotations: seq<Source<Annotation>>,
                               adjudications: seq<Source<Adjudication>>)

  datatype Agreement = Agreement(
    annotationCount: nat,
    adjudicationCount: nat,
    completed: seq<string>,
    incomplete: seq<string>,
    conflicts: map<string, seq<string>>,
    unresolved: set<string>,
    errors: seq<Issue>)

  function AcceptedOf(e: Evidence): Intake<Annotation> { Collect(AnnotationCheck(TargetMap(e.targets)), e.annotations) }

  function CompletedOf(e: Evidence): seq<string> {
    Keep(IsCompleted(TargetMap(e.targets), AcceptedOf(e).accepted), TargetOrder(e.targets))
  }

  function ConflictsOf(e: Evidence): map<string, seq<string>> { Conflicts(AcceptedOf(e).accepted, CompletedOf(e)) }

  function SettledOf(e: Evidence): Intake<Adjudication> {
    Collect(AdjudicationCheck(TargetMap(e.targets), ConflictsOf(e)), e.adjudications)
  }

  function AgreementOf(e: Evidence): Agreement {
    var incomplete := Keep(IsIncomplete(TargetMap(e.targets), AcceptedOf(e).accepted), TargetOrder(e.targets));
    var adjudicated := AdjudicatedBy(SettledOf(e).accepted);
    Agreement(|AcceptedOf(e).accepted|, |adjudicated|, Sort(CompletedOf(e), StringLe), Sort(incomplete, StringLe),
              ConflictsOf(e), ConflictsOf(e).Keys - adjudicated, AcceptedOf(e).issues + SettledOf(e).issues)
  }

  /**
   Per dimension, the within-threshold count equals the pair count exactly when no target lists the
   dimension as conflicted.
   */
  predicate CountsMatchConflicts(tallies: map<string, Tally>, conflicts: map<string, seq<string>>) {
    forall d :: d in DIMENSIONS ==>
      d in tallies && (tallies[d].within == tallies[d].pairs <==> forall id :: id in conflicts ==> d !in conflicts[id])
  }

  lemma {:induction false} ListedExactly(accepted: seq<Annotation>, completed: seq<string>, d: string)
    requires d in DIMENSIONS
    ensures (forall id :: id in Conflicts(accepted, completed) ==> d !in Conflicts(accepted, completed)[id])
            <==> forall k :: 0 <= k < |completed| ==> !Disputes(d, RowsOf(accepted, completed[k]))
  {
    var conflicts := Conflicts(accepted, completed);
    forall id | id in completed ensures Disputes(d, RowsOf(accepted, id)) <==> id in conflicts && d in conflicts[id] {
      KeepMembers((dimension: string) => Disputes(dimension, RowsOf(accepted, id)), DIMENSIONS);
    }
  }

  lemma {:induction false} CountsMatch(tallies: map<string, Tally>, accepted: seq<Annotation>, completed: seq<string>)
    requires Tallied(tallies, DIMENSIONS, AllPairs(accepted, completed))
    ensures CountsMatchConflicts(tallies, Conflicts(accepted, completed))
  {
    forall d | d in DIMENSIONS
      ensures d in tallies && (tallies[d].within == tallies[d].pairs <==>
                               forall id :: id in Conflicts(accepted, completed) ==>
                                 d !in Conflicts(accepted, completed)[id])
    {
      assert d in Elements(DIMENSIONS);
      ListedExactly(accepted, completed, d);
      WithinExactlyWhenUndisputed(d, accepted, completed);
    }
  }

  /** `_agreement_report`. */
  method AgreementReport(e: Evidence) returns (report: Agreement, tallies: map<string, Tally>)
    ensures report == AgreementOf(e)
    ensures Tallied(tallies, DIMENSIONS, AllPairs(AcceptedOf(e).accepted, CompletedOf(e)))
    ensures CountsMatchConflicts(tallies, report.conflicts)
  {
    var targets, order := TargetMap(e.targets), TargetOrder(e.targets);
    var filed, byTarget, errors := CollectAnnotations(targets, e.annotations);
    var total := CountAnnotations(filed, byTarget, AcceptedOf(e).accepted);
    var completed, incomplete, conflicts;
    tallies, completed, incomplete, conflicts := ScoreTargets(order, targets, byTarget, filed, AcceptedOf(e).accepted);
    CountsMatch(tallies, AcceptedOf(e).accepted, completed);
    var adjudicated, moreErrors := CollectAdjudications(targets, conflicts, e.adjudications);
    report := Agreement(total, |adjudicated|, Sort(completed, StringLe), Sort(incomplete, StringLe),
                        conflicts, conflicts.Keys - adjudicated, errors + moreErrors);
  }

  datatype Status =
    | InvalidEvidence | BlockedNoAnnotations | RequiresAdjudication | PartialCalibration | ProtocolComplete

  /** The external ledger: how many evidence records it lists, and the status it claims. */
  datatype Ledger = Ledger(records: nat, status: string)

  predicate LedgerConsistent(ledger: Ledger) {
    ledger.status == (if ledger.records == 0 then "no_external_validation_completed"
      else "external_validation_completed")
  }

  /** The status chain of `build_calibration_audit`. */
  function StatusOf(report: Agreement, targetCount: nat, ledger: Ledger): Status {
    if report.errors != [] || !LedgerConsistent(ledger) then InvalidEvidence
    else if report.annotationCount == 0 then BlockedNoAnnotations
    else if report.unresolved != {} then RequiresAdjudication
    else if report.incomplete != [] || |report.completed| < targetCount then PartialCalibration
    else ProtocolComplete
  }

  // ----- What a complete protocol means -----

  function TargetIdOf(t: Target): string { t.targetId }

  function AdjudicatedIdOf(j: Adjudication): string { j.targetId }

  /** No two annotations share an assignment, or a target and a pseudonym. */
  predicate Independent(annotations: seq<Annotation>) {
    forall i, j :: 0 <= i < j < |annotations| ==>
      && annotations[i].assignmentId != annotations[j].assignmentId
      && !(annotations[i].targetId == annotations[j].targetId && annotations[i].pseudonym == annotations[j].pseudonym)
  }

  predicate AnsweredBy(id: string, pseudonym: string, annotations: seq<Annotation>) {
    exists k :: 0 <= k < |annotations| && annotations[k].targetId == id && annotations[k].pseudonym == pseudonym
  }

  /** Each assigned pseudonym of t has annotated it. */
  predicate FullyAnnotated(t: Target, annotations: seq<Annotation>) {
    && t.assignments != []
    && forall m :: 0 <= m < |t.assignments| ==> AnsweredBy(t.targetId, t.assignments[m].pseudonym, annotations)
  }

  /** j resolves exactly the disputed dimensions of its target, on the bound evidence. */
  predicate Resolves(j: Adjudication, targets: map<string, Target>, annotations: seq<Annotation>) {
    && j.targetId in targets
    && j.runId == targets[j.targetId].runId && j.digest == targets[j.targetId].digest && '@' !in j.pseudonym
    && j.finalScores == Elements(Disputed(RowsOf(annotations, j.targetId))) != {}
  }

  predicate AnnotationsMet(targets: seq<Target>, annotations: seq<Annotation>) {
    && (forall k :: 0 <= k < |annotations| ==> Binds(TargetMap(targets), annotations[k]))
    && Independent(annotations)
    && (forall k :: 0 <= k < |targets| ==> FullyAnnotated(targets[k], annotations))
  }

  predicate AdjudicationsMet(targets: seq<Target>, annotations: seq<Annotation>, adjudications: seq<Adjudication>) {
    && (forall k :: 0 <= k < |adjudications| ==> Resolves(adjudications[k], TargetMap(targets), annotations))
    && Distinct(MapSeq(AdjudicatedIdOf, adjudications))
    && (forall k :: 0 <= k < |targets| && Disputed(RowsOf(annotations, targets[k].targetId)) != [] ==>
          targets[k].targetId in AdjudicatedBy(adjudications))
  }

  /**
   The protocol in its own terms: different targets, one independent annotation for every
   assigned pseudonym of a target and none besides, one adjudication for every conflicted target and none besides,
   every file readable, and a consistent ledger.
   */
  predicate ProtocolMet(e: Evidence, ledger: Ledger) {
    && LedgerConsistent(ledger) && e.targets != [] && Distinct(MapSeq(TargetIdOf, e.targets))
    && AllRead(e.annotations) && AllRead(e.adjudications)
    && AnnotationsMet(e.targets, Records(e.annotations))
    && AdjudicationsMet(e.targets, Records(e.annotations), Records(e.adjudications))
  }

  lemma {:induction false} AnnotationsPassExactly(targets: map<string, Target>, annotations: seq<Annotation>)
    ensures AllPass(AnnotationCheck(targets), annotations)
            <==> (forall k :: 0 <= k < |annotations| ==> Binds(targets, annotations[k])) && Independent(annotations)
  {
    var check := AnnotationCheck(targets);
    forall k | 0 <= k < |annotations|
      ensures check(annotations[..k], annotations[k]).None?
              <==> Binds(targets, annotations[k]) && !Repeats(annotations[..k], annotations[k])
    {
    }
    if AllPass(check, annotations) {
      forall i, j | 0 <= i < j < |annotations| ensures
        annotations[i].assignmentId != annotations[j].assignmentId
        && !(annotations[i].targetId == annotations[j].targetId && annotations[i].pseudonym == annotations[j].pseudonym)
      {
        assert check(annotations[..j], annotations[j]).None?;
        assert annotations[..j][i] == annotations[i];
      }
    }
  }

  lemma {:induction false} AdjudicationsPassExactly(targets: map<string, Target>,
      conflicts: map<string, seq<string>>, adjudications: seq<Adjudication>)
    ensures AllPass(AdjudicationCheck(targets, conflicts), adjudications)
            <==> && (forall k :: 0 <= k < |adjudications| ==> Settles(targets, conflicts, adjudications[k]))
                 && Distinct(MapSeq(AdjudicatedIdOf, adjudications))
  {
    var check := AdjudicationCheck(targets, conflicts);
    var ids := MapSeq(AdjudicatedIdOf, adjudications);
    forall k | 0 <= k < |adjudications|
      ensures check(adjudications[..k], adjudications[k]).None?
              <==> Settles(targets, conflicts, adjudications[k]) && ids[k] !in AdjudicatedBy(adjudications[..k])
    {
      assert ids[k] == AdjudicatedIdOf(adjudications[k]);
    }
    forall i, j | 0 <= i < j < |adjudications| ensures ids[i] in AdjudicatedBy(adjudications[..j]) {
      assert adjudications[..j][i] == adjudications[i] && ids[i] == AdjudicatedIdOf(adjudications[i]);
      assert adjudications[i] in adjudications[..j];
    }
    if Distinct(ids) {
      forall k | 0 <= k < |adjudications| ensures ids[k] !in AdjudicatedBy(adjudications[..k]) {
        forall j | j in adjudications[..k] ensures j.targetId != ids[k] {
          var i :| 0 <= i < k && adjudications[..k][i] == j;
          assert ids[i] == AdjudicatedIdOf(adjudications[i]);
        }
      }
    }
  }

  lemma {:induction false} TargetMapKeys(targets: seq<Target>)
    ensures forall k :: 0 <= k < |targets| ==> targets[k].targetId in TargetMap(targets)
    ensures forall id :: id in TargetMap(targets) ==> exists k :: 0 <= k < |targets| && targets[k].targetId == id
  {
    if targets != [] {
      var before := targets[..|targets| - 1];
      TargetMapKeys(before);
      forall k | 0 <= k < |targets| ensures targets[k].targetId in TargetMap(targets) {
        if k < |before| { assert before[k] == targets[k]; }
      }
      forall id | id in TargetMap(targets) ensures exists k :: 0 <= k < |targets| && targets[k].targetId == id {
        if id in TargetMap(before) {
          var k :| 0 <= k < |before| && before[k].targetId == id;
          assert targets[k].targetId == id;
        }
      }
    }
  }

  /** With different ids each entry of the dictionary is its target. */
  lemma {:induction false} TargetMapGets(targets: seq<Target>, k: nat)
    requires Distinct(MapSeq(TargetIdOf, targets)) && k < |targets|
    ensures targets[k].targetId in TargetMap(targets) && TargetMap(targets)[targets[k].targetId] == targets[k]
  {
    var before, ids := targets[..|targets| - 1], MapSeq(TargetIdOf, targets);
    if k < |before| {
      assert MapSeq(TargetIdOf, before) == ids[..|before|];
      TargetMapGets(before, k);
      assert ids[k] == TargetIdOf(targets[k]) && ids[|before|] == TargetIdOf(targets[|before|]);
    }
  }

  /** The dictionary has one entry per target exactly when the ids are different. */
  lemma {:induction false} TargetOrderSize(targets: seq<Target>)
    ensures |TargetOrder(targets)| == |targets| <==> Distinct(MapSeq(TargetIdOf, targets))
  {
    var ids := MapSeq(TargetIdOf, targets);
    ElementsSize(ids);
    ElementsSize(TargetOrder(targets));
    TargetMapKeys(targets);
    forall id ensures id in Elements(ids) <==> id in Elements(TargetOrder(targets)) {
      if id in ids {
        var k :| 0 <= k < |ids| && ids[k] == id;
        assert ids[k] == TargetIdOf(targets[k]);
      }
      if id in TargetMap(targets) {
        var k :| 0 <= k < |targets| && targets[k].targetId == id;
        assert ids[k] == TargetIdOf(targets[k]);
      }
    }
    assert Elements(ids) == Elements(TargetOrder(targets));
  }

  lemma {:induction false} PseudonymsAnswered(id: string, pseudonym: string, annotations: seq<Annotation>)
    ensures pseudonym in Pseudonyms(RowsOf(annotations, id)) <==> AnsweredBy(id, pseudonym, annotations)
  {
    var rows := RowsOf(annotations, id);
    KeepMembers(ForTarget(id), annotations);
    if pseudonym in Pseudonyms(rows) {
      var a :| a in rows && a.pseudonym == pseudonym;
      assert a in annotations && a.targetId == id;
    }
    if AnsweredBy(id, pseudonym, annotations) {
      var k :| 0 <= k < |annotations| && annotations[k].targetId == id && annotations[k].pseudonym == pseudonym;
      assert annotations[k] in rows;
    }
  }

  lemma {:induction false} AssignedPseudonymsExactly(t: Target, pseudonym: string)
    ensures pseudonym in AssignedPseudonyms(t)
            <==> exists m :: 0 <= m < |t.assignments| && t.assignments[m].pseudonym == pseudonym
  {
  }

  /** Bound annotations only come from assigned pseudonyms. */
  lemma {:induction false} AnswersAreAssigned(t: Target, targets: map<string, Target>, annotations: seq<Annotation>,
      pseudonym: string)
    requires t.targetId in targets && targets[t.targetId] == t && forall k :: 0 <= k < |annotations| ==>
            Binds(targets, annotations[k])
    requires AnsweredBy(t.targetId, pseudonym, annotations)
    ensures pseudonym in AssignedPseudonyms(t)
  {
    var k :| 0 <= k < |annotations| && annotations[k].targetId == t.targetId && annotations[k].pseudonym == pseudonym;
    assert Binds(targets, annotations[k]);
    AssignedExactly(t.assignments, pseudonym);
    AssignedPseudonymsExactly(t, pseudonym);
  }

  /** So a target is completed exactly when each assigned annotator has answered. */
  lemma {:induction false} CompletedExactly(t: Target, targets: map<string, Target>, annotations: seq<Annotation>)
    requires t.targetId in targets && targets[t.targetId] == t && forall k :: 0 <= k < |annotations| ==>
            Binds(targets, annotations[k])
    ensures IsCompleted(targets, annotations)(t.targetId) <==> FullyAnnotated(t, annotations)
  {
    var given, expected := Pseudonyms(RowsOf(annotations, t.targetId)), AssignedPseudonyms(t);
    forall p ensures p in given <==> AnsweredBy(t.targetId, p, annotations) {
      PseudonymsAnswered(t.targetId, p, annotations);
    }
    forall p | p in given ensures p in expected {
      AnswersAreAssigned(t, targets, annotations, p);
    }
    forall p ensures p in expected <==> exists m :: 0 <= m < |t.assignments| && t.assignments[m].pseudonym == p {
      AssignedPseudonymsExactly(t, p);
    }
    SetsDecide(t, RowsOf(annotations, t.targetId), annotations);
  }

  lemma {:induction false} SetsDecide(t: Target, rows: seq<Annotation>, annotations: seq<Annotation>)
    requires Pseudonyms(rows) <= AssignedPseudonyms(t)
    requires forall p :: p in Pseudonyms(rows) <==> AnsweredBy(t.targetId, p, annotations)
    ensures rows != [] && Pseudonyms(rows) == AssignedPseudonyms(t) <==> FullyAnnotated(t, annotations)
  {
    if rows != [] && Pseudonyms(rows) == AssignedPseudonyms(t) {
      assert rows[0].pseudonym in Pseudonyms(rows);
      forall m | 0 <= m < |t.assignments| ensures AnsweredBy(t.targetId, t.assignments[m].pseudonym, annotations) {
        assert t.assignments[m].pseudonym in AssignedPseudonyms(t);
      }
    }
    if FullyAnnotated(t, annotations) {
      assert t.assignments[0].pseudonym in Pseudonyms(rows);
    }
  }

  /** Enough completed targets means: different ids, each of them fully annotated. */
  lemma {:induction false} AllCompletedExactly(targets: seq<Target>, annotations: seq<Annotation>)
    requires forall k :: 0 <= k < |annotations| ==> Binds(TargetMap(targets), annotations[k])
    ensures |Keep(IsCompleted(TargetMap(targets), annotations), TargetOrder(targets))| >= |targets|
            <==> Distinct(MapSeq(TargetIdOf, targets)) && forall k :: 0 <= k < |targets| ==>
              FullyAnnotated(targets[k], annotations)
  {
    var tm, order := TargetMap(targets), TargetOrder(targets);
    var f := IsCompleted(tm, annotations);
    TargetMapKeys(targets);
    TargetOrderSize(targets);
    KeepMembers(f, order);
    KeepFull(f, order);
    if Distinct(MapSeq(TargetIdOf, targets)) {
      forall k | 0 <= k < |targets| ensures f(targets[k].targetId) <==> FullyAnnotated(targets[k], annotations) {
        TargetMapGets(targets, k);
        CompletedExactly(targets[k], tm, annotations);
      }
      if forall id :: id in order ==> f(id) {
        forall k | 0 <= k < |targets| ensures FullyAnnotated(targets[k], annotations) {
          assert targets[k].targetId in order;
        }
      }
      if forall k :: 0 <= k < |targets| ==> FullyAnnotated(targets[k], annotations) {
        forall id | id in order ensures f(id) {
          var k :| 0 <= k < |targets| && targets[k].targetId == id;
        }
      }
    }
  }

  /** Once every target is completed, the recorded conflicts are the disputed dimensions of every target. */
  lemma {:induction false} ConflictsWhenCompleted(targets: seq<Target>, annotations: seq<Annotation>)
    requires |Keep(IsCompleted(TargetMap(targets), annotations), TargetOrder(targets))| >= |targets|
    ensures Keep(IsIncomplete(TargetMap(targets), annotations), TargetOrder(targets)) == []
    ensures forall id :: id in TargetMap(targets) ==>
            id in Keep(IsCompleted(TargetMap(targets), annotations), TargetOrder(targets))
  {
    var tm, order := TargetMap(targets), TargetOrder(targets);
    KeepMembers(IsCompleted(tm, annotations), order);
    KeepFull(IsCompleted(tm, annotations), order);
    KeepNone(IsIncomplete(tm, annotations), order);
    KeepAll(IsCompleted(tm, annotations), order);
  }

  /** With every target completed, the adjudications that pass are the resolving ones. */
  lemma {:induction false} ResolvingExactly(targets: map<string, Target>, annotations: seq<Annotation>,
      completed: seq<string>, adjudications: seq<Adjudication>)
    requires forall id :: id in targets <==> id in completed
    ensures AllPass(AdjudicationCheck(targets, Conflicts(annotations, completed)), adjudications)
            <==> (forall k :: 0 <= k < |adjudications| ==> Resolves(adjudications[k], targets, annotations))
                 && Distinct(MapSeq(AdjudicatedIdOf, adjudications))
  {
    var conflicts := Conflicts(annotations, completed);
    AdjudicationsPassExactly(targets, conflicts, adjudications);
    forall k | 0 <= k < |adjudications|
      ensures Resolves(adjudications[k], targets, annotations) <==> Settles(targets, conflicts, adjudications[k])
    {
      var id := adjudications[k].targetId;
      if id in targets {
        assert ConflictSet(conflicts, id) == Elements(Disputed(RowsOf(annotations, id)));
      }
    }
  }

  /** And nothing is unresolved exactly when every disputed target has one. */
  lemma {:induction false} ResolvedExactly(targets: seq<Target>, annotations: seq<Annotation>,
      completed: seq<string>, adjudicated: set<string>)
    requires forall id :: id in TargetMap(targets) <==> id in completed
    ensures Conflicts(annotations, completed).Keys - adjudicated == {}
            <==> forall k :: 0 <= k < |targets| && Disputed(RowsOf(annotations, targets[k].targetId)) != [] ==>
              targets[k].targetId in adjudicated
  {
    TargetMapKeys(targets);
    var unresolved := Conflicts(annotations, completed).Keys - adjudicated;
    forall k | 0 <= k < |targets|
      ensures Disputed(RowsOf(annotations, targets[k].targetId)) != [] && targets[k].targetId !in adjudicated
              <==> targets[k].targetId in unresolved
    {
    }
    forall id | id in unresolved ensures exists k :: 0 <= k < |targets| && targets[k].targetId == id {
      assert id in TargetMap(targets);
    }
  }

  /** The status chain, with the lists sorted for display put back. */
  lemma {:induction false} StatusUnfolds(e: Evidence, ledger: Ledger)
    ensures StatusOf(AgreementOf(e), |e.targets|, ledger) == ProtocolComplete
            <==> && LedgerConsistent(ledger) && AcceptedOf(e).issues == [] && SettledOf(e).issues == []
                 && AcceptedOf(e).accepted != [] && ConflictsOf(e).Keys - AdjudicatedBy(SettledOf(e).accepted) == {}
                 && Keep(IsIncomplete(TargetMap(e.targets), AcceptedOf(e).accepted), TargetOrder(e.targets)) == []
                 && |CompletedOf(e)| >= |e.targets|
  {
    SortPermutes(CompletedOf(e), StringLe);
    SortPermutes(Keep(IsIncomplete(TargetMap(e.targets), AcceptedOf(e).accepted), TargetOrder(e.targets)), StringLe);
  }

  /** With every annotation admitted and every target completed, what is left is what the adjudications must meet. */
  lemma {:induction false} AdjudicationsDecide(e: Evidence)
    ensures |CompletedOf(e)| >= |e.targets| ==>
              (SettledOf(e).issues == [] && ConflictsOf(e).Keys - AdjudicatedBy(SettledOf(e).accepted) == {}
               <==> && AllRead(e.adjudications)
                    && AdjudicationsMet(e.targets, AcceptedOf(e).accepted, Records(e.adjudications)))
  {
    var tm, annotations := TargetMap(e.targets), AcceptedOf(e).accepted;
    KeepMembers(IsCompleted(tm, annotations), TargetOrder(e.targets));
    if |CompletedOf(e)| < |e.targets| {
      return;
    }
    ConflictsWhenCompleted(e.targets, annotations);
    CollectExactly(AdjudicationCheck(tm, ConflictsOf(e)), e.adjudications);
    if AllRead(e.adjudications) {
      ResolvingExactly(tm, annotations, CompletedOf(e), Records(e.adjudications));
      ResolvedExactly(e.targets, annotations, CompletedOf(e), AdjudicatedBy(Records(e.adjudications)));
    }
  }

  /** There are no annotation issues exactly when the files hold bound, independent annotations. */
  lemma {:induction false} AnnotationsDecide(e: Evidence)
    ensures AcceptedOf(e).issues == []
            <==> && AllRead(e.annotations) && Independent(Records(e.annotations))
                 && forall k :: 0 <= k < |Records(e.annotations)| ==>
                   Binds(TargetMap(e.targets), Records(e.annotations)[k])
    ensures AcceptedOf(e).issues == [] ==> AcceptedOf(e).accepted == Records(e.annotations)
  {
    CollectExactly(AnnotationCheck(TargetMap(e.targets)), e.annotations);
    if AllRead(e.annotations) {
      AnnotationsPassExactly(TargetMap(e.targets), Records(e.annotations));
    }
  }

  lemma {:induction false} AnsweredNeedsAnnotations(t: Target, annotations: seq<Annotation>)
    requires FullyAnnotated(t, annotations)
    ensures annotations != []
  {
    assert AnsweredBy(t.targetId, t.assignments[0].pseudonym, annotations);
  }

  lemma {:induction false} BoundNeedsTargets(targets: seq<Target>, a: Annotation)
    requires Binds(TargetMap(targets), a)
    ensures targets != []
  {
    assert targets == [] ==> TargetMap(targets) == map[];
  }

  /** The status says protocol-complete exactly when the protocol is met. */
  lemma {:induction false} ProtocolCompleteExactly(e: Evidence, ledger: Ledger)
    ensures StatusOf(AgreementOf(e), |e.targets|, ledger) == ProtocolComplete <==> ProtocolMet(e, ledger)
  {
    StatusUnfolds(e, ledger);
    AnnotationsDecide(e);
    if AcceptedOf(e).issues == [] {
      CompletionDecides(e);
    }
  }

  /** With every annotation admitted, the rest of the status chain is the rest of the protocol. */
  lemma {:induction false} CompletionDecides(e: Evidence)
    requires AcceptedOf(e).issues == [] && AllRead(e.annotations) && AcceptedOf(e).accepted == Records(e.annotations)
    requires forall k :: 0 <= k < |Records(e.annotations)| ==> Binds(TargetMap(e.targets), Records(e.annotations)[k])
    ensures SettledOf(e).issues == [] && AcceptedOf(e).accepted != []
            && ConflictsOf(e).Keys - AdjudicatedBy(SettledOf(e).accepted) == {}
            && Keep(IsIncomplete(TargetMap(e.targets), AcceptedOf(e).accepted), TargetOrder(e.targets)) == []
            && |CompletedOf(e)| >= |e.targets|
            <==> && e.targets != [] && Distinct(MapSeq(TargetIdOf, e.targets)) && AllRead(e.adjudications)
                 && (forall k :: 0 <= k < |e.targets| ==> FullyAnnotated(e.targets[k], Records(e.annotations)))
                 && AdjudicationsMet(e.targets, Records(e.annotations), Records(e.adjudications))
  {
    var annotations := Records(e.annotations);
    AllCompletedExactly(e.targets, annotations);
    if |CompletedOf(e)| >= |e.targets| {
      ConflictsWhenCompleted(e.targets, annotations);
      AdjudicationsDecide(e);
      if e.targets != [] { AnsweredNeedsAnnotations(e.targets[0], annotations); }
      if annotations != [] { BoundNeedsTargets(e.targets, annotations[0]); }
    }
  }

  function PseudonymOf(a: Assignment): string { a.pseudonym }

  predicate DistinctPseudonyms(t: Target) { Distinct(MapSeq(PseudonymOf, t.assignments)) }

  lemma {:induction false} AssignedIdGets(assignments: seq<Assignment>, m: nat)
    requires m < |assignments| && Distinct(MapSeq(PseudonymOf, assignments))
    ensures AssignedId(assignments, assignments[m].pseudonym) == Some(assignments[m].assignmentId)
  {
    var before, names := assignments[..|assignments| - 1], MapSeq(PseudonymOf, assignments);
    if m < |before| {
      assert MapSeq(PseudonymOf, before) == names[..|before|];
      assert names[m] == PseudonymOf(assignments[m]) && names[|before|] == PseudonymOf(assignments[|before|]);
      AssignedIdGets(before, m);
    }
  }

  /**
   Exactly one annotation answers each assigned pseudonym, with the assignment id that the
   packet's dictionary holds for it, and no other annotation has that id. When no pseudonym of
   the target repeats, that is each assignment's own id.
   */
  lemma {:induction false} AnnotatedOnce(targets: seq<Target>, annotations: seq<Annotation>, t: Target, m: nat)
    returns (k: nat)
    requires AnnotationsMet(targets, annotations) && Distinct(MapSeq(TargetIdOf, targets))
    requires t in targets && m < |t.assignments|
    ensures var pseudonym := t.assignments[m].pseudonym;
            && k < |annotations| && annotations[k].targetId == t.targetId && annotations[k].pseudonym == pseudonym
            && AssignedId(t.assignments, pseudonym) == Some(annotations[k].assignmentId)
            && (forall j :: 0 <= j < |annotations| && j != k ==>
              !(annotations[j].targetId == t.targetId && annotations[j].pseudonym == pseudonym))
            && (forall j :: 0 <= j < |annotations| && j != k ==>
              annotations[j].assignmentId != annotations[k].assignmentId)
    ensures DistinctPseudonyms(t) ==> annotations[k].assignmentId == t.assignments[m].assignmentId
  {
    var n :| 0 <= n < |targets| && targets[n] == t;
    TargetMapGets(targets, n);
    assert FullyAnnotated(targets[n], annotations);
    assert AnsweredBy(t.targetId, t.assignments[m].pseudonym, annotations);
    k :| 0 <= k < |annotations| && annotations[k].targetId == t.targetId &&
      annotations[k].pseudonym == t.assignments[m].pseudonym;
    assert Binds(TargetMap(targets), annotations[k]);
    if DistinctPseudonyms(t) { AssignedIdGets(t.assignments, m); }
  }

  // ----- How many annotations a met protocol has -----

  function PairOf(a: Annotation): (string, string) { (a.targetId, a.pseudonym) }

  function AnnotatorOf(a: Annotation): string { a.pseudonym }

  function AssignmentsOf(t: Target): nat { |t.assignments| }

  function PseudonymsOf(t: Target): nat { |AssignedPseudonyms(t)| }

  lemma {:induction false} PseudonymsAtMostAssignments(t: Target)
    ensures PseudonymsOf(t) <= AssignmentsOf(t)
    ensures PseudonymsOf(t) == AssignmentsOf(t) <==> DistinctPseudonyms(t)
  {
    var names := MapSeq(PseudonymOf, t.assignments);
    ElementsSize(names);
    assert Elements(names) == AssignedPseudonyms(t) by {
      assert forall k :: 0 <= k < |names| ==> names[k] == t.assignments[k].pseudonym;
      forall x | x in AssignedPseudonyms(t) ensures x in names {
        var k :| 0 <= k < |t.assignments| && t.assignments[k].pseudonym == x;
        assert names[k] == x;
      }
    }
  }

  /** A fully annotated target has one row for each of its pseudonyms. */
  lemma {:induction false} RowsPerTarget(targets: seq<Target>, annotations: seq<Annotation>, t: Target)
    requires AnnotationsMet(targets, annotations) && Distinct(MapSeq(TargetIdOf, targets)) && t in targets
    ensures Count(ForTarget(t.targetId), annotations) == PseudonymsOf(t)
  {
    var rows := RowsOf(annotations, t.targetId);
    var names := MapSeq(AnnotatorOf, rows);
    KeepSize(ForTarget(t.targetId), annotations);
    KeepMembers(ForTarget(t.targetId), annotations);
    assert forall i, j :: 0 <= i < j < |annotations| ==> PairOf(annotations[i]) != PairOf(annotations[j]);
    KeepDistinct(ForTarget(t.targetId), annotations, PairOf);
    forall i, j | 0 <= i < j < |names| ensures names[i] != names[j] {
      assert PairOf(rows[i]) != PairOf(rows[j]) && rows[i] in rows && rows[j] in rows;
    }
    ElementsSize(names);
    NamesAreAssigned(targets, annotations, t);
  }

  lemma {:induction false} NamesAreAssigned(targets: seq<Target>, annotations: seq<Annotation>, t: Target)
    requires AnnotationsMet(targets, annotations) && Distinct(MapSeq(TargetIdOf, targets)) && t in targets
    ensures Elements(MapSeq(AnnotatorOf, RowsOf(annotations, t.targetId))) == AssignedPseudonyms(t)
  {
    var n :| 0 <= n < |targets| && targets[n] == t;
    TargetMapGets(targets, n);
    CompletedExactly(t, TargetMap(targets), annotations);
    assert FullyAnnotated(targets[n], annotations);
    AnnotatorNames(RowsOf(annotations, t.targetId));
  }

  lemma {:induction false} AnnotatorNames(rows: seq<Annotation>)
    ensures Elements(MapSeq(AnnotatorOf, rows)) == Pseudonyms(rows)
  {
    var names := MapSeq(AnnotatorOf, rows);
    assert forall k :: 0 <= k < |rows| ==> names[k] == AnnotatorOf(rows[k]);
    forall x | x in Pseudonyms(rows) ensures x in names {
      var k :| 0 <= k < |rows| && rows[k].pseudonym == x;
      assert names[k] == x;
    }
  }

  function ForTargets(ids: set<string>): Annotation -> bool { (a: Annotation) => a.targetId in ids }

  lemma {:induction false} CountOneMore(ids: set<string>, id: string, annotations: seq<Annotation>)
    requires id !in ids
    ensures Count(ForTargets(ids + {id}), annotations)
            == Count(ForTargets(ids), annotations) + Count(ForTarget(id), annotations)
  {
    if annotations != [] { CountOneMore(ids, id, annotations[1..]); }
  }

  lemma {:induction false} RowsAddUp(targets: seq<Target>, annotations: seq<Annotation>, n: nat)
    requires AnnotationsMet(targets, annotations) && Distinct(MapSeq(TargetIdOf, targets)) && n <= |targets|
    ensures Count(ForTargets(Elements(MapSeq(TargetIdOf, targets[..n]))), annotations)
            == Total(PseudonymsOf, targets[..n])
  {
    var ids := MapSeq(TargetIdOf, targets);
    if n == 0 {
      assert MapSeq(TargetIdOf, targets[..0]) == [];
      CountEmpty(ForTargets({}), annotations);
      assert Elements(MapSeq(TargetIdOf, targets[..0])) == {};
    } else {
      var t, before := targets[n - 1], MapSeq(TargetIdOf, targets[..n - 1]);
      RowsAddUp(targets, annotations, n - 1);
      TakeMore(targets, n - 1);
      TotalSnoc(PseudonymsOf, targets[..n - 1], t);
      MapMore(TargetIdOf, targets, n - 1);
      assert before == ids[..n - 1] && ids[n - 1] == t.targetId;
      assert Elements(before + [t.targetId]) == Elements(before) + {t.targetId};
      CountOneMore(Elements(before), t.targetId, annotations);
      RowsPerTarget(targets, annotations, t);
    }
  }

  lemma {:induction false} TotalOrder(f: Target -> nat, g: Target -> nat, targets: seq<Target>)
    requires forall t :: t in targets ==> f(t) <= g(t)
    ensures Total(f, targets) <= Total(g, targets)
    ensures Total(f, targets) == Total(g, targets) <==> forall t :: t in targets ==> f(t) == g(t)
  {
    if targets != [] {
      var before, last := targets[..|targets| - 1], targets[|targets| - 1];
      assert targets == before + [last] && last in targets;
      TotalOrder(f, g, before);
    }
  }

  /**
   A met protocol has one annotation for each pseudonym of each target: one for each assignment
   exactly when no target repeats one.
   */
  lemma {:induction false} AnnotationsPerAssignment(targets: seq<Target>, annotations: seq<Annotation>)
    requires AnnotationsMet(targets, annotations) && Distinct(MapSeq(TargetIdOf, targets))
    ensures |annotations| == Total(PseudonymsOf, targets) <= Total(AssignmentsOf, targets)
    ensures |annotations| == Total(AssignmentsOf, targets) <==> forall t :: t in targets ==> DistinctPseudonyms(t)
  {
    var ids := MapSeq(TargetIdOf, targets);
    assert targets[..|targets|] == targets;
    RowsAddUp(targets, annotations, |targets|);
    TargetMapKeys(targets);
    forall k | 0 <= k < |annotations| ensures ForTargets(Elements(ids))(annotations[k]) {
      assert Binds(TargetMap(targets), annotations[k]);
      var n :| 0 <= n < |targets| && targets[n].targetId == annotations[k].targetId;
      assert ids[n] == TargetIdOf(targets[n]);
    }
    CountFull(ForTargets(Elements(ids)), annotations);
    forall t | t in targets
      ensures PseudonymsOf(t) <= AssignmentsOf(t) && (PseudonymsOf(t) == AssignmentsOf(t) <==> DistinctPseudonyms(t)) {
      PseudonymsAtMostAssignments(t);
    }
    TotalOrder(PseudonymsOf, AssignmentsOf, targets);
  }

  /** A target has exactly one adjudication when it is conflicted and none otherwise. */
  lemma {:induction false} AdjudicatedOnce(targets: seq<Target>, annotations: seq<Annotation>,
      adjudications: seq<Adjudication>, t: Target)
    requires AdjudicationsMet(targets, annotations, adjudications) && t in targets
    ensures Count((j: Adjudication) => j.targetId == t.targetId, adjudications)
            == if Disputed(RowsOf(annotations, t.targetId)) == [] then 0 else 1
  {
    var n :| 0 <= n < |targets| && targets[n] == t;
    CountDistinct(adjudications, t.targetId);
    if t.targetId in AdjudicatedBy(adjudications) {
      var j :| j in adjudications && j.targetId == t.targetId;
      var k :| 0 <= k < |adjudications| && adjudications[k] == j;
      assert Resolves(adjudications[k], TargetMap(targets), annotations);
    }
  }

  lemma {:induction false} CountDistinct(adjudications: seq<Adjudication>, id: string)
    requires Distinct(MapSeq(AdjudicatedIdOf, adjudications))
    ensures Count((j: Adjudication) => j.targetId == id, adjudications) == if id in AdjudicatedBy(adjudications)
            then 1 else 0
  {
    if adjudications != [] {
      var first, rest, ids := adjudications[0], adjudications[1..], MapSeq(AdjudicatedIdOf, adjudications);
      assert MapSeq(AdjudicatedIdOf, rest) == ids[1..];
      CountDistinct(rest, id);
      assert adjudications == [first] + rest;
      assert AdjudicatedBy(adjudications) == {first.targetId} + AdjudicatedBy(rest);
      forall j | j in rest ensures j.targetId != first.targetId {
        var k :| 0 <= k < |rest| && rest[k] == j;
        assert ids[k + 1] == AdjudicatedIdOf(adjudications[k + 1]) && ids[0] == AdjudicatedIdOf(first);
      }
    }
  }
}
