/** The audit's numbers and its status, said of the scores and the files themselves. */
module CalibrationMeaning {
  import opened Prelude
  import opened Sorting
  import opened CalibrationAudit

  // ----- Conflicts and counters -----

  predicate AllScore(rows: seq<Annotation>, dimension: string) {
    forall k :: 0 <= k < |rows| ==> dimension in rows[k].scores
  }

  /** Two of the rows are more than 0.20 apart. */
  predicate FarApart(rows: seq<Annotation>, dimension: string)
    requires AllScore(rows, dimension)
  {
    exists i, j :: 0 <= i < |rows| && 0 <= j < |rows| && rows[i].scores[dimension] - rows[j].scores[dimension] > 0.20
  }

  /** A target's conflicted dimensions are those of the five on which two of its annotators are far apart. */
  lemma {:induction false} DisputedExactly(rows: seq<Annotation>, dimension: string)
    requires AllScore(rows, dimension)
    ensures dimension in Disputed(rows)
            <==> && dimension in {"task_success", "evidence_grounding", "schema_adherence", "safety_boundary",
                                  "actionability"}
                 && FarApart(rows, dimension)
  {
    KeepMembers((d: string) => Disputes(d, rows), DIMENSIONS);
    DimensionsAre(dimension);
    if rows != [] { SpreadExactly(rows, dimension); }
  }

  lemma {:induction false} DimensionsAre(dimension: string)
    ensures dimension in DIMENSIONS
            <==> dimension in {"task_success", "evidence_grounding", "schema_adherence", "safety_boundary",
                               "actionability"}
  {
    assert DIMENSIONS[0] == "task_success" && DIMENSIONS[1] == "evidence_grounding";
    assert DIMENSIONS[2] == "schema_adherence" && DIMENSIONS[3] == "safety_boundary";
    assert DIMENSIONS[4] == "actionability";
  }

  lemma {:induction false} SpreadExactly(rows: seq<Annotation>, dimension: string)
    requires rows != [] && AllScore(rows, dimension)
    ensures Disputes(dimension, rows) <==> FarApart(rows, dimension)
  {
    var scores := MapSeq(ScoreOn(dimension), rows);
    LeastGreatestBound(scores);
    assert forall k :: 0 <= k < |rows| ==> scores[k] == rows[k].scores[dimension];
    var low :| 0 <= low < |rows| && scores[low] == Least(scores);
    var high :| 0 <= high < |rows| && scores[high] == Greatest(scores);
    assert rows[high].scores[dimension] - rows[low].scores[dimension] == Greatest(scores) - Least(scores);
  }

  predicate BothScore(ps: seq<RowPair>, dimension: string) {
    forall k :: 0 <= k < |ps| ==> dimension in ps[k].0.scores && dimension in ps[k].1.scores
  }

  /** How far two scores are apart. */
  function Gap(p: RowPair, dimension: string): real
    requires dimension in p.0.scores && dimension in p.1.scores
  {
    var x, y := p.0.scores[dimension], p.1.scores[dimension];
    if x <= y then y - x else x - y
  }

  function GapSum(ps: seq<RowPair>, dimension: string): real
    requires BothScore(ps, dimension)
  {
    if ps == [] then 0.0 else Gap(ps[0], dimension) + GapSum(ps[1..], dimension)
  }

  function GapsEqualTo0(ps: seq<RowPair>, dimension: string): nat
    requires BothScore(ps, dimension)
  {
    if ps == [] then 0
    else (if ps[0].0.scores[dimension] == ps[0].1.scores[dimension] then 1 else 0) + GapsEqualTo0(ps[1..], dimension)
  }

  function GapsUpTo20(ps: seq<RowPair>, dimension: string): nat
    requires BothScore(ps, dimension)
  {
    if ps == [] then 0 else (if Gap(ps[0], dimension) <= 0.20 then 1 else 0) + GapsUpTo20(ps[1..], dimension)
  }

  lemma {:induction false} DeltaIsGap(p: RowPair, dimension: string)
    requires dimension in p.0.scores && dimension in p.1.scores
    ensures Delta(dimension, p) == Gap(p, dimension)
    ensures Same(dimension)(p) <==> p.0.scores[dimension] == p.1.scores[dimension]
    ensures Near(dimension)(p) <==> Gap(p, dimension) <= 0.20
  {
  }

  lemma {:induction false} TotalDeltaCons(dimension: string, p: RowPair, ps: seq<RowPair>)
    ensures TotalDelta(dimension, [p] + ps) == Delta(dimension, p) + TotalDelta(dimension, ps)
  {
    var all := [p] + ps;
    if ps == [] {
      assert all == [p] && all[..0] == [];
    } else {
      var before, last := ps[..|ps| - 1], ps[|ps| - 1];
      assert all[..|all| - 1] == [p] + before && all[|all| - 1] == last;
      TotalDeltaCons(dimension, p, before);
    }
  }

  /** The four counters of a dimension: pairs, equal scores, scores at most 0.20 apart, and the sum of all gaps. */
  lemma {:induction false} TallyExactly(ps: seq<RowPair>, dimension: string)
    requires BothScore(ps, dimension)
    ensures TallyOf(dimension, ps)
            == Tally(|ps|, GapsEqualTo0(ps, dimension), GapsUpTo20(ps, dimension), GapSum(ps, dimension))
  {
    if ps != [] {
      var rest := ps[1..];
      assert ps == [ps[0]] + rest;
      TallyExactly(rest, dimension);
      DeltaIsGap(ps[0], dimension);
      TotalDeltaCons(dimension, ps[0], rest);
    }
  }

  // ----- The lists of the report -----

  /** Whatever is accepted is bound to its target. */
  lemma {:induction false} AcceptedBind(targets: map<string, Target>, sources: seq<Source<Annotation>>)
    ensures forall a :: a in Collect(AnnotationCheck(targets), sources).accepted ==> Binds(targets, a)
  {
    if sources != [] {
      AcceptedBind(targets, sources[..|sources| - 1]);
    }
  }

  predicate Annotated(id: string, annotations: seq<Annotation>) {
    exists k :: 0 <= k < |annotations| && annotations[k].targetId == id
  }

  /** A target is listed as completed when all of its annotators answered, and as incomplete when only some did. */
  lemma {:induction false} ListsExactly(e: Evidence, t: Target)
    requires t.targetId in TargetMap(e.targets) && TargetMap(e.targets)[t.targetId] == t
    ensures var report, annotations := AgreementOf(e), AcceptedOf(e).accepted;
            && (t.targetId in report.completed <==> FullyAnnotated(t, annotations))
            && (t.targetId in report.incomplete <==>
                  Annotated(t.targetId, annotations) && !FullyAnnotated(t, annotations))
  {
    var tm, order, annotations := TargetMap(e.targets), TargetOrder(e.targets), AcceptedOf(e).accepted;
    AcceptedBind(tm, e.annotations);
    SortPermutes(Keep(IsCompleted(tm, annotations), order), StringLe);
    SortPermutes(Keep(IsIncomplete(tm, annotations), order), StringLe);
    KeepMembers(IsCompleted(tm, annotations), order);
    KeepMembers(IsIncomplete(tm, annotations), order);
    CompletedExactly(t, tm, annotations);
    RowsAnnotated(t.targetId, annotations);
  }

  lemma {:induction false} RowsAnnotated(id: string, annotations: seq<Annotation>)
    ensures RowsOf(annotations, id) != [] <==> Annotated(id, annotations)
  {
    KeepMembers(ForTarget(id), annotations);
    if RowsOf(annotations, id) != [] {
      var a := RowsOf(annotations, id)[0];
      assert a in RowsOf(annotations, id) && a in annotations;
      var k :| 0 <= k < |annotations| && annotations[k] == a;
    }
    if k :| 0 <= k < |annotations| && annotations[k].targetId == id {
      assert annotations[k] in RowsOf(annotations, id);
    }
  }

  /** The report lists a completed target's conflicts, unresolved when no accepted adjudication names the target. */
  lemma {:induction false} ConflictsExactly(e: Evidence, id: string, dimension: string)
    requires AllScore(RowsOf(AcceptedOf(e).accepted, id), dimension)
    ensures var report := AgreementOf(e);
            && (id in report.conflicts && dimension in report.conflicts[id] <==>
                  && id in report.completed
                  && dimension in {"task_success", "evidence_grounding", "schema_adherence", "safety_boundary",
                                   "actionability"}
                  && FarApart(RowsOf(AcceptedOf(e).accepted, id), dimension))
            && (id in report.unresolved <==>
                  id in report.conflicts && forall j :: j in SettledOf(e).accepted ==> j.targetId != id)
  {
    SortPermutes(CompletedOf(e), StringLe);
    DisputedExactly(RowsOf(AcceptedOf(e).accepted, id), dimension);
  }

  // ----- The status -----

  /** The ledger claims completion exactly when it lists evidence. */
  predicate LedgerHonest(ledger: Ledger) {
    if ledger.records == 0 then ledger.status == "no_external_validation_completed"
    else ledger.status == "external_validation_completed"
  }

  /** Every file is read and bound, no two annotations are the same, and every adjudication settles its conflict. */
  ghost predicate Sound(e: Evidence, ledger: Ledger) {
    && LedgerHonest(ledger) && AllRead(e.annotations) && AllRead(e.adjudications)
    && Independent(Records(e.annotations))
    && (forall k :: 0 <= k < |e.annotations| ==> Binds(TargetMap(e.targets), Records(e.annotations)[k]))
    && (forall k :: 0 <= k < |e.adjudications| ==>
          Settles(TargetMap(e.targets), ConflictsOf(e), Records(e.adjudications)[k]))
    && Distinct(MapSeq(AdjudicatedIdOf, Records(e.adjudications)))
  }

  /** A completed target is in conflict and no adjudication answers it. */
  ghost predicate Unsettled(e: Evidence) {
    exists id :: id in ConflictsOf(e) && id !in AdjudicatedBy(SettledOf(e).accepted)
  }

  /** Targets with different ids, each annotated by all of its annotators. */
  ghost predicate Finished(e: Evidence) {
    && Distinct(MapSeq(TargetIdOf, e.targets))
    && forall k :: 0 <= k < |e.targets| ==> FullyAnnotated(e.targets[k], AcceptedOf(e).accepted)
  }

  lemma {:induction false} NoErrorsExactly(e: Evidence, ledger: Ledger)
    ensures AgreementOf(e).errors == [] && LedgerConsistent(ledger) <==> Sound(e, ledger)
    ensures Sound(e, ledger) ==> AcceptedOf(e).accepted == Records(e.annotations)
  {
    AnnotationsDecide(e);
    CollectExactly(AdjudicationCheck(TargetMap(e.targets), ConflictsOf(e)), e.adjudications);
    if AllRead(e.adjudications) {
      AdjudicationsPassExactly(TargetMap(e.targets), ConflictsOf(e), Records(e.adjudications));
    }
  }

  lemma {:induction false} FinishedExactly(e: Evidence, ledger: Ledger)
    requires Sound(e, ledger)
    ensures AgreementOf(e).incomplete != [] || |AgreementOf(e).completed| < |e.targets| <==> !Finished(e)
  {
    NoErrorsExactly(e, ledger);
    var annotations, tm, order := AcceptedOf(e).accepted, TargetMap(e.targets), TargetOrder(e.targets);
    SortPermutes(CompletedOf(e), StringLe);
    SortPermutes(Keep(IsIncomplete(tm, annotations), order), StringLe);
    AllCompletedExactly(e.targets, annotations);
    if |CompletedOf(e)| >= |e.targets| { ConflictsWhenCompleted(e.targets, annotations); }
  }

  /** Each status and when it is given, the worst first. */
  lemma {:induction false} StatusExactly(e: Evidence, ledger: Ledger)
    ensures StatusOf(AgreementOf(e), |e.targets|, ledger) ==
            if !Sound(e, ledger) then InvalidEvidence
            else if e.annotations == [] then BlockedNoAnnotations
            else if Unsettled(e) then RequiresAdjudication
            else if !Finished(e) then PartialCalibration
            else ProtocolComplete
  {
    NoErrorsExactly(e, ledger);
    if Sound(e, ledger) { FinishedExactly(e, ledger); }
    UnsettledExactly(e);
  }

  lemma {:induction false} UnsettledExactly(e: Evidence)
    ensures AgreementOf(e).unresolved != {} <==> Unsettled(e)
  {
    var unresolved := ConflictsOf(e).Keys - AdjudicatedBy(SettledOf(e).accepted);
    if unresolved != {} {
      var id :| id in unresolved;
    }
    if id :| id in ConflictsOf(e) && id !in AdjudicatedBy(SettledOf(e).accepted) {
      assert id in unresolved;
    }
  }
}
