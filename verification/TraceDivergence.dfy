/** The first meaningful divergence of two aligned traces, and the evidence attached to it. */
module TraceDivergence {
  import opened Prelude
  import opened TraceAlignment
  import opened TraceDiagonal

  datatype DivergenceResult = DivergenceResult(
    found: bool,
    leftOrdinal: Option<nat>,
    rightOrdinal: Option<nat>,
    confidence: Option<real>,
    reason: string,
    evidenceRefs: seq<string>,
    diagnosticOnly: bool,
    causalLabel: string)

  const DIAGNOSTIC := "DIAGNOSTIC_ONLY"
  const CAUSAL_CANDIDATE := "COUNTERFACTUAL_SUPPORTED_CANDIDATE"
  const CONTENT_CONFIDENCE := 0.95
  const UNMATCHED_CONFIDENCE := 0.85

  predicate Scaffolding(anchor: SemanticAnchor) {
    anchor == Start || anchor == Request
  }

  function AnchorName(anchor: SemanticAnchor): string {
    match anchor
    case Start => "start"
    case Request => "request"
    case ModelResponse => "model_response"
    case ToolCall => "tool_call"
    case ToolResult => "tool_result"
    case StateChange => "state_change"
    case Checkpoint => "checkpoint"
    case Retry => "retry"
    case Final => "final"
    case ErrorAnchor => "error"
  }

  const NOTHING_OBSERVED := "no meaningful aligned divergence observed"

  /** `_divergence_reason`, of a row that is not a match. */
  function DivergenceReason(row: Row): (string, real) {
    if row.status == ContentDifference
    then (AnchorName(row.anchor) + " observation digests differ at the same semantic anchor", CONTENT_CONFIDENCE)
    else
      var side := if row.status == LeftOnly then "left" else "right";
      (side + " trace contains an unmatched " + AnchorName(row.anchor) + " anchor", UNMATCHED_CONFIDENCE)
  }

  /** Nothing is reported about these rows. */
  predicate Silent(rows: seq<Row>) {
    forall k :: 0 <= k < |rows| ==> !Meaningful(rows[k])
  }

  predicate Meaningful(row: Row) {
    row.status != Match && (row.status == ContentDifference || !Scaffolding(row.anchor))
  }

  /** A row that nothing is reported about: an aligned pair without two different observations, or lone scaffolding. */
  predicate Unremarkable(row: Row, l: Trace, r: Trace) {
    match (row.left, row.right)
    case (Some(i), Some(j)) =>
      i < |l| && j < |r| && (l[i].digest == r[j].digest || l[i].digest == None || r[j].digest == None)
    case (Some(i), None) => i < |l| && (l[i].anchor == Start || l[i].anchor == Request)
    case (None, Some(j)) => j < |r| && (r[j].anchor == Start || r[j].anchor == Request)
    case (None, None) => false
  }

  lemma {:induction false} MeaningfulIsRemarkable(row: Row, l: Trace, r: Trace)
    requires RowOk(row, l, r)
    ensures Meaningful(row) <==> !Unremarkable(row, l, r)
  {
  }

  /** The reason and the confidence, said of the two events that the result names. */
  predicate Explains(result: DivergenceResult, l: Trace, r: Trace) {
    match (result.leftOrdinal, result.rightOrdinal)
    case (Some(i), Some(j)) =>
      && i < |l| && j < |r| && l[i].anchor == r[j].anchor
      && l[i].digest.Some? && r[j].digest.Some? && l[i].digest != r[j].digest
      && result.confidence == Some(0.95)
      && result.reason == AnchorName(l[i].anchor) + " observation digests differ at the same semantic anchor"
    case (Some(i), None) =>
      && i < |l| && l[i].anchor != Start && l[i].anchor != Request && result.confidence == Some(0.85)
      && result.reason == "left" + " trace contains an unmatched " + AnchorName(l[i].anchor) + " anchor"
    case (None, Some(j)) =>
      && j < |r| && r[j].anchor != Start && r[j].anchor != Request && result.confidence == Some(0.85)
      && result.reason == "right" + " trace contains an unmatched " + AnchorName(r[j].anchor) + " anchor"
    case (None, None) => false
  }

  // ----- Evidence next to a one-sided row -----

  /** The evidence reference that a row carries on one side. */
  function RowRef(row: Row, leftSide: bool, events: Trace): Option<string> {
    var ordinal := Side(row, leftSide);
    if ordinal.Some? && ordinal.value < |events| then events[ordinal.value].evidenceRef else None
  }

  /** No row closer to position than distance carries a reference. */
  ghost predicate NothingWithin(rows: seq<Row>, position: nat, distance: nat, leftSide: bool, events: Trace) {
    forall k :: 0 <= k < |rows| && k != position && k - position < distance && position - k < distance
      ==> RowRef(rows[k], leftSide, events) == None
  }

  /**
   `_nearest_evidence_ref`: the reference of the nearest other row that has one, the following
   row first at equal distance, and None exactly when no other row has one.
   */
  method NearestEvidenceRef(rows: seq<Row>, position: nat, leftSide: bool, events: Trace)
    returns (reference: Option<string>)
    requires position < |rows|
    ensures reference == None <==>
            forall k :: 0 <= k < |rows| && k != position ==> RowRef(rows[k], leftSide, events) == None
    ensures reference.Some? ==> exists distance: nat ::
              && 1 <= distance && NothingWithin(rows, position, distance, leftSide, events)
              && if position + distance < |rows| && RowRef(rows[position + distance], leftSide, events).Some?
                 then reference == RowRef(rows[position + distance], leftSide, events)
                 else position >= distance && reference == RowRef(rows[position - distance], leftSide, events)
  {
    for distance := 1 to |rows| + 1
      invariant NothingWithin(rows, position, distance, leftSide, events)
    {
      var after := position + distance;
      if after < |rows| {
        reference := RowRef(rows[after], leftSide, events);
        if reference.Some? {
          return;
        }
      }
      if position >= distance {
        reference := RowRef(rows[position - distance], leftSide, events);
        if reference.Some? {
          return;
        }
      }
    }
    return None;
  }

  method SideRef(rows: seq<Row>, position: nat, leftSide: bool, events: Trace) returns (reference: Option<string>)
    requires position < |rows|
    ensures RowRef(rows[position], leftSide, events).Some? ==> reference == RowRef(rows[position], leftSide, events)
    ensures reference == None <==> forall k :: 0 <= k < |rows| ==> RowRef(rows[k], leftSide, events) == None
    ensures reference.Some? ==> exists k :: 0 <= k < |rows| && reference == RowRef(rows[k], leftSide, events)
  {
    reference := RowRef(rows[position], leftSide, events);
    if reference == None {
      reference := NearestEvidenceRef(rows, position, leftSide, events);
    }
  }

  /** Some row carries a reference on that side. */
  ghost predicate SideHasEvidence(rows: seq<Row>, leftSide: bool, events: Trace) {
    exists k :: 0 <= k < |rows| && RowRef(rows[k], leftSide, events).Some?
  }

  /** One side speaks in refs exactly when it has any evidence, with its own row's reference first choice. */
  ghost predicate Represents(refs: seq<string>, rows: seq<Row>, position: nat, leftSide: bool, events: Trace)
    requires position < |rows|
  {
    && (SideHasEvidence(rows, leftSide, events) ==>
          exists k :: 0 <= k < |rows| && RowRef(rows[k], leftSide, events).Some? &&
            RowRef(rows[k], leftSide, events).value in refs)
    && (RowRef(rows[position], leftSide, events).Some? ==> RowRef(rows[position], leftSide, events).value in refs)
  }

  /** Both sides are represented, left first, without repeats and with nothing invented. */
  ghost predicate Bilateral(refs: seq<string>, rows: seq<Row>, position: nat, l: Trace, r: Trace)
    requires position < |rows|
  {
    && Distinct(refs) && |refs| <= 2
    && Represents(refs, rows, position, true, l) && Represents(refs, rows, position, false, r)
    && (forall x :: x in refs ==>
      exists k :: 0 <= k < |rows| && (RowRef(rows[k], true, l) == Some(x) || RowRef(rows[k], false, r) == Some(x)))
    && (RowRef(rows[position], true, l).Some? ==> refs[0] == RowRef(rows[position], true, l).value)
  }

  /** `_contextual_evidence_refs`. */
  method ContextualEvidenceRefs(rows: seq<Row>, position: nat, l: Trace, r: Trace) returns (refs: seq<string>)
    requires position < |rows|
    ensures Bilateral(refs, rows, position, l, r)
  {
    var leftRef := SideRef(rows, position, true, l);
    var rightRef := SideRef(rows, position, false, r);
    refs := [];
    if leftRef.Some? {
      refs := [leftRef.value];
    }
    if rightRef.Some? && rightRef.value !in refs {
      refs := refs + [rightRef.value];
    }
  }

  // ----- The divergence itself -----

  /**
   `first_meaningful_divergence`: it reports the first row that is neither a match nor
   unmatched scaffolding, reports nothing exactly when there is no such row, and no
   combination of caller-supplied flags makes it more than diagnostic. Traces that agree
   wherever both were observed, and have at most five half-observed positions, are silent.
   */
  method FirstMeaningfulDivergence(l: Trace, r: Trace, preregistered: bool, replicated: bool, fidelityPass: bool,
      invariantsPass: bool)
    returns (result: Result<DivergenceResult, WalkError>)
    ensures result.Ok? <==> Align(l, r).Ok?
    ensures result.Err? ==> result.error == CrossAnchorDiagonal
    ensures result.Ok? ==> result.value.diagnosticOnly && result.value.causalLabel == DIAGNOSTIC
    ensures result.Ok? ==> (result.value.found <==> !Silent(Align(l, r).value.alignments))
    ensures result.Ok? ==>
            (result.value.found <==> exists row :: row in Align(l, r).value.alignments && !Unremarkable(row, l, r))
    ensures result.Ok? && result.value.found ==> Explains(result.value, l, r)
    ensures result.Ok? && !result.value.found ==>
              result.value == DivergenceResult(false, None, None, None, NOTHING_OBSERVED, [], true, DIAGNOSTIC)
    ensures result.Ok? && result.value.found ==>
              exists position :: IsFirstDivergence(Align(l, r).value.alignments, position, l, r, result.value)
    ensures Compatible(l, r) && Half(l, r, |l|) <= 5 ==> result.Ok? && !result.value.found
  {
    if Compatible(l, r) && Half(l, r, |l|) <= 5 {
      FewHalvesAlignDiagonally(l, r);
    }
    var aligned := AlignTraces(l, r);
    if aligned.Err? {
      return Err(aligned.error);
    }
    var rows := aligned.value.alignments;
    forall k | 0 <= k < |rows| ensures Meaningful(rows[k]) <==> !Unremarkable(rows[k], l, r) {
      MeaningfulIsRemarkable(rows[k], l, r);
    }
    for position := 0 to |rows|
      invariant forall k :: 0 <= k < position ==> !Meaningful(rows[k])
    {
      var row := rows[position];
      if row.status == Match {
        continue;
      }
      if row.status != ContentDifference && Scaffolding(row.anchor) {
        continue;
      }
      var found := DivergenceAt(rows, position, l, r, preregistered, replicated, fidelityPass);
      return Ok(found);
    }
    return Ok(DivergenceResult(false, None, None, None, NOTHING_OBSERVED, [], true, DIAGNOSTIC));
  }

  /** The result for the row at which the loop stops. */
  method DivergenceAt(rows: seq<Row>, position: nat, l: Trace, r: Trace, preregistered: bool, replicated: bool,
      fidelityPass: bool)
    returns (found: DivergenceResult)
    requires position < |rows| && Meaningful(rows[position]) && forall k :: 0 <= k < position ==> !Meaningful(rows[k])
    requires RowOk(rows[position], l, r)
    ensures found.found && found.diagnosticOnly && found.causalLabel == DIAGNOSTIC
    ensures IsFirstDivergence(rows, position, l, r, found) && Explains(found, l, r)
  {
    found := ReportRow(rows, position, l, r, preregistered, replicated, fidelityPass);
    ReasonExplains(rows[position], l, r, found);
  }

  lemma {:induction false} ReasonExplains(row: Row, l: Trace, r: Trace, result: DivergenceResult)
    requires RowOk(row, l, r) && Meaningful(row)
    requires result.leftOrdinal == row.left && result.rightOrdinal == row.right
    requires result.confidence == Some(DivergenceReason(row).1) && result.reason == DivergenceReason(row).0
    ensures Explains(result, l, r)
  {
  }

  method ReportRow(rows: seq<Row>, position: nat, l: Trace, r: Trace, preregistered: bool, replicated: bool,
      fidelityPass: bool)
    returns (found: DivergenceResult)
    requires position < |rows| && Meaningful(rows[position]) && forall k :: 0 <= k < position ==> !Meaningful(rows[k])
    ensures found.found && found.diagnosticOnly && found.causalLabel == DIAGNOSTIC
    ensures IsFirstDivergence(rows, position, l, r, found)
  {
    var row := rows[position];
    var refs := ContextualEvidenceRefs(rows, position, l, r);
    var (reason, confidence) := DivergenceReason(row);
    var derivedInvariantsAvailable := false;
    var causal := preregistered && replicated && fidelityPass && derivedInvariantsAvailable && refs != [];
    found := DivergenceResult(true, row.left, row.right, Some(confidence), reason, refs, !causal,
                              if causal then CAUSAL_CANDIDATE else DIAGNOSTIC);
  }

  ghost predicate IsFirstDivergence(rows: seq<Row>, position: int, l: Trace, r: Trace, result: DivergenceResult) {
    && 0 <= position < |rows| && Meaningful(rows[position])
    && (forall k :: 0 <= k < position ==> !Meaningful(rows[k]))
    && Bilateral(result.evidenceRefs, rows, position, l, r)
    && result.leftOrdinal == rows[position].left && result.rightOrdinal == rows[position].right
    && result.confidence == Some(DivergenceReason(rows[position]).1)
    && result.reason == DivergenceReason(rows[position]).0
  }
}
