/** What it means that two traces show no divergence, and when compatible traces show none. */
module TraceSilence {
  import opened Prelude
  import opened Sorting
  import opened TraceAlignment
  import opened TraceDiagonal
  import opened TraceNormalization
  import opened TraceDivergence

  // ----- Silence means compatible traces -----

  type Anchors = set<SemanticAnchor>

  /** The anchors of START and REQUEST scaffolding. */
  const SCAFFOLDING: Anchors := {Start, Request}

  function IsCore(dropped: Anchors): NormalizedEvent -> bool { (e: NormalizedEvent) => e.anchor !in dropped }

  /** The events with none of these anchors. */
  function Strip(dropped: Anchors, t: Trace): Trace { Keep(IsCore(dropped), t) }

  lemma {:induction false} StripLast(dropped: Anchors, t: Trace, n: nat)
    requires 0 < n <= |t|
    ensures Strip(dropped, t[..n])
            == Strip(dropped, t[..n - 1]) + (if t[n - 1].anchor in dropped then [] else [t[n - 1]])
  {
    assert t[..n][..n - 1] == t[..n - 1];
  }

  lemma {:induction false} SilentRowsStripCompatible(rows: seq<Row>, l: Trace, r: Trace, i: nat, j: nat)
    requires i <= |l| && j <= |r| && Covers(rows, l, r, i, j) && Silent(rows)
    ensures Compatible(Strip(SCAFFOLDING, l[..i]), Strip(SCAFFOLDING, r[..j]))
    decreases |rows|
  {
    if rows != [] {
      var row := rows[|rows| - 1];
      var before := rows[..|rows| - 1];
      var i' := if row.left.Some? then i - 1 else i;
      var j' := if row.right.Some? then j - 1 else j;
      SilentRowsStripCompatible(before, l, r, i', j');
      assert !Meaningful(row);
      if row.left.Some? { StripLast(SCAFFOLDING, l, i); }
      if row.right.Some? { StripLast(SCAFFOLDING, r, j); }
    }
  }

  /** When nothing is reported, the two traces agree once their scaffolding is removed. */
  lemma {:induction false} NoDivergenceMeansCompatible(l: Trace, r: Trace)
    requires Align(l, r).Ok? && Silent(Align(l, r).value.alignments)
    ensures Compatible(Strip(SCAFFOLDING, l), Strip(SCAFFOLDING, r))
  {
    AlignIsOptimal(l, r);
    CoversIff(Align(l, r).value.alignments, l, r);
    SilentRowsStripCompatible(Align(l, r).value.alignments, l, r, |l|, |r|);
    assert l[..|l|] == l && r[..|r|] == r;
  }

  // ----- Six half-observed positions can be reported -----

  function DiagonalTotal(l: Trace, r: Trace, n: nat): int {
    if n == 0 || n > |l| || n > |r| then 0 else DiagonalTotal(l, r, n - 1) + DiagonalScore(l[n - 1], r[n - 1])
  }

  lemma {:induction false} SilentPairedRowsAreDiagonal(rows: seq<Row>, l: Trace, r: Trace, i: nat, j: nat)
    requires i <= |l| && j <= |r| && Covers(rows, l, r, i, j) && Silent(rows)
    requires forall k :: 0 <= k < |l| ==> !Scaffolding(l[k].anchor)
    requires forall k :: 0 <= k < |r| ==> !Scaffolding(r[k].anchor)
    ensures i == j
    ensures Score(rows, l, r) == DiagonalTotal(l, r, i)
    decreases |rows|
  {
    if rows != [] {
      var row := rows[|rows| - 1];
      var before := rows[..|rows| - 1];
      assert !Meaningful(row);
      assert row.left.Some? && row.right.Some?;
      SilentPairedRowsAreDiagonal(before, l, r, i - 1, j - 1);
    }
  }

  /** Every event pairs with its own position on the anchor alone, and exactly with a neighbour every other time. */
  ghost predicate Alternating(l: Trace, r: Trace) {
    && |l| == |r|
    && (forall k :: 0 <= k < |l| ==> l[k].anchor == Checkpoint && r[k].anchor == Checkpoint)
    && (forall k :: 0 <= k < |l| ==> DiagonalScore(l[k], r[k]) == ANCHOR_ONLY)
    && (forall k :: 0 <= k < |l| - 1 ==> DiagonalScore(l[k], r[k + 1]) == if k % 2 == 0 then EXACT else ANCHOR_ONLY)
  }

  lemma {:induction false} DiagonalWorth(l: Trace, r: Trace, n: nat)
    requires Alternating(l, r) && n <= |l|
    ensures DiagonalTotal(l, r, n) == n * ANCHOR_ONLY
  {
    if n > 0 { DiagonalWorth(l, r, n - 1); }
  }

  lemma {:induction false} ShiftStep(l: Trace, r: Trace, k: nat)
    requires k < |l| && k + 1 < |r| && l[k].anchor == r[k + 1].anchor
    ensures Cell(l, r, k + 1, k + 2) >= Cell(l, r, k, k + 1) + DiagonalScore(l[k], r[k + 1])
  {
  }

  /** What pairing the first k events with their right neighbours is worth. */
  function ShiftWorth(k: nat): int { 6 * k + 2 * (k % 2) + GAP }

  lemma {:induction false} ShiftedWorth(l: Trace, r: Trace, k: nat)
    requires Alternating(l, r) && k < |l|
    ensures Cell(l, r, k, k + 1) >= ShiftWorth(k)
  {
    if k > 0 {
      ShiftedWorth(l, r, k - 1);
      NeighbourScore(l, r, k - 1);
      WorthAt(l, r, k);
    }
  }

  lemma {:induction false} NeighbourScore(l: Trace, r: Trace, k: nat)
    requires Alternating(l, r) && k + 1 < |l|
    ensures l[k].anchor == r[k + 1].anchor
    ensures DiagonalScore(l[k], r[k + 1]) == if k % 2 == 0 then EXACT else ANCHOR_ONLY
  {
  }

  lemma {:induction false} WorthAt(l: Trace, r: Trace, k: nat)
    requires 0 < k < |l| && k < |r| && l[k - 1].anchor == r[k].anchor && Cell(l, r, k - 1, k) >= ShiftWorth(k - 1)
    requires DiagonalScore(l[k - 1], r[k]) == if (k - 1) % 2 == 0 then EXACT else ANCHOR_ONLY
    ensures Cell(l, r, k, k + 1) >= ShiftWorth(k)
  {
    ShiftStep(l, r, k - 1);
    WorthStep(k, Cell(l, r, k - 1, k), DiagonalScore(l[k - 1], r[k]), Cell(l, r, k, k + 1));
  }

  lemma {:induction false} WorthStep(k: nat, before: int, score: int, after: int)
    requires k > 0 && before >= ShiftWorth(k - 1) && after >= before + score
    requires score == if (k - 1) % 2 == 0 then EXACT else ANCHOR_ONLY
    ensures after >= ShiftWorth(k)
  {
    assert (k - 1) % 2 == 1 - k % 2;
  }

  lemma {:induction false} SilenceIsWorthTheDiagonal(l: Trace, r: Trace)
    requires Align(l, r).Ok? && Silent(Align(l, r).value.alignments) && Alternating(l, r)
    ensures Cell(l, r, |l|, |r|) == DiagonalTotal(l, r, |l|)
  {
    var rows := WalkAttainsCell(l, r, |l|, |r|, []);
    assert rows + [] == rows;
    SilentPairedRowsAreDiagonal(rows, l, r, |l|, |r|);
  }

  lemma {:induction false} LastGap(l: Trace, r: Trace, n: nat)
    requires 0 < n <= |l| && n <= |r|
    ensures Cell(l, r, n, n) >= Cell(l, r, n - 1, n) + GAP
  {
  }

  lemma {:induction false} ShiftWins(n: nat, shifted: int, best: int)
    requires n >= 6 && shifted >= ShiftWorth(n - 1) && best >= shifted + GAP
    ensures best > n * ANCHOR_ONLY
  {
  }

  lemma {:induction false} ShiftBeatsDiagonal(l: Trace, r: Trace)
    requires Alternating(l, r) && 6 <= |l|
    ensures Cell(l, r, |l|, |r|) > DiagonalTotal(l, r, |l|)
  {
    var n := |l|;
    DiagonalWorth(l, r, n);
    ShiftedWorth(l, r, n - 1);
    LastGap(l, r, n);
    ShiftWins(n, Cell(l, r, n - 1, n), Cell(l, r, n, n));
  }

  /** From six events on, the shifted pairing beats the diagonal, so silence is not optimal. */
  lemma {:induction false} AlternatingIsReported(l: Trace, r: Trace)
    requires Alternating(l, r) && 6 <= |l| && Align(l, r).Ok?
    ensures !Silent(Align(l, r).value.alignments)
  {
    ShiftBeatsDiagonal(l, r);
    if Silent(Align(l, r).value.alignments) {
      SilenceIsWorthTheDiagonal(l, r);
    }
  }

  // ----- The witness, as events that a caller can supply -----

  /** Checkpoints without clocks or evidence, with these observations. */
  function Checkpoints(digests: seq<Option<string>>): seq<TraceEvent> {
    seq(|digests|, k requires 0 <= k < |digests| =>
      TraceEvent(seq(k + 1, _ => 'e'), Checkpoint, k, None, None, None, digests[k]))
  }

  function Digest(k: nat): string
    requires k < 6
  {
    seq(64, _ => 'a' + k as char)
  }

  /** Every other of n checkpoints is observed: the even ones, or the odd ones. */
  function Observed(n: nat, parity: nat): seq<Option<string>>
    requires n <= 6
  {
    seq(n, k requires 0 <= k < n => if k % 2 == parity then Some(Digest(k / 2)) else None)
  }

  lemma {:induction false} ObservedDigests(n: nat, parity: nat)
    requires n <= 6
    ensures forall d :: d in Observed(n, parity) && d.Some? ==> IsDigest(d.value)
  {
  }

  lemma {:induction false} CheckpointsNormalize(digests: seq<Option<string>>)
    requires forall d :: d in digests && d.Some? ==> IsDigest(d.value)
    ensures forall e :: e in Checkpoints(digests) ==> Admissible(e)
    ensures Normalize(Checkpoints(digests)).Ok? && |Normalize(Checkpoints(digests)).value| == |digests|
    ensures forall k :: 0 <= k < |digests| ==> IsCheckpoint(Normalize(Checkpoints(digests)).value[k], digests[k])
  {
    var events := Checkpoints(digests);
    var ids := MapSeq(IdOf, events);
    forall k | 0 <= k < |ids| ensures |ids[k]| == k + 1 {
      assert ids[k] == IdOf(events[k]);
    }
    ListedInSequence(events);
  }

  predicate IsCheckpoint(e: NormalizedEvent, digest: Option<string>) { e.anchor == Checkpoint && e.digest == digest }

  lemma {:induction false} AlternatingHalves(l: Trace, r: Trace, n: nat)
    requires n <= |l| && n <= |r| && forall k :: 0 <= k < n ==> (l[k].digest.None? <==> r[k].digest.Some?)
    ensures Half(l, r, n) == n
  {
    if n > 0 { AlternatingHalves(l, r, n - 1); }
  }

  /** The normalized traces of n checkpoints each, observed on alternating sides. */
  lemma {:induction false} AlternatingTraces(n: nat) returns (l: Trace, r: Trace)
    requires n <= 6
    ensures forall e :: e in Checkpoints(Observed(n, 0)) + Checkpoints(Observed(n, 1)) ==> Admissible(e)
    ensures Normalize(Checkpoints(Observed(n, 0))) == Ok(l) && Normalize(Checkpoints(Observed(n, 1))) == Ok(r)
    ensures |l| == n && Alternating(l, r) && Compatible(l, r) && Half(l, r, n) == n
  {
    ObservedDigests(n, 0);
    ObservedDigests(n, 1);
    CheckpointsNormalize(Observed(n, 0));
    CheckpointsNormalize(Observed(n, 1));
    l, r := Normalize(Checkpoints(Observed(n, 0))).value, Normalize(Checkpoints(Observed(n, 1))).value;
    ObservedAlternate(l, r, n);
    AlternatingHalves(l, r, n);
  }

  lemma {:induction false} ObservedAlternate(l: Trace, r: Trace, n: nat)
    requires n <= 6 && |l| == n && |r| == n
    requires forall k :: 0 <= k < n ==> IsCheckpoint(l[k], Observed(n, 0)[k])
    requires forall k :: 0 <= k < n ==> IsCheckpoint(r[k], Observed(n, 1)[k])
    ensures Alternating(l, r) && Compatible(l, r)
    ensures forall k :: 0 <= k < n ==> (l[k].digest.None? <==> r[k].digest.Some?)
  {
    assert forall k :: 0 <= k < n - 1 && k % 2 == 0 ==> (k + 1) / 2 == k / 2;
  }

  /** The comparison returns and reports nothing. */
  predicate ComparesSilently(l: Trace, r: Trace) {
    Align(l, r).Ok? && Silent(Align(l, r).value.alignments)
  }

  /**
   Compatible traces that a caller can supply are reported: one shift buys enough exact matches to
   pay for two gaps.
   */
  lemma {:induction false} CompatibleTracesMayDiverge() returns (s: seq<TraceEvent>, t: seq<TraceEvent>)
    ensures (forall e :: e in s + t ==> Admissible(e)) && Normalize(s).Ok? && Normalize(t).Ok?
    ensures var l, r := Normalize(s).value, Normalize(t).value;
            Compatible(l, r) && |l| == 6 && Half(l, r, |l|) == 6 && Align(l, r).Ok? && !ComparesSilently(l, r)
  {
    var l, r := AlternatingTraces(6);
    s, t := Checkpoints(Observed(6, 0)), Checkpoints(Observed(6, 1));
    WalkReturnsWhenSmall(l, r, |l|, |r|, []);
    AlternatingIsReported(l, r);
  }

  /** A trace never diverges from itself. */
  lemma {:induction false} SelfComparisonIsSilent(t: Trace)
    ensures ComparesSilently(t, t)
  {
    SelfAlignmentIsIdentity(t);
  }

  ghost predicate SilentUpTo(m: nat) {
    forall l, r :: Compatible(l, r) && Half(l, r, |l|) <= m ==> ComparesSilently(l, r)
  }

  /** Compatible traces of any length are silent with up to five half-observed positions, and not with six. */
  lemma {:induction false} CompatibleSilenceExactly(m: nat)
    ensures SilentUpTo(m) <==> m <= 5
  {
    if m <= 5 {
      forall l, r | Compatible(l, r) && Half(l, r, |l|) <= m ensures ComparesSilently(l, r) {
        FewHalvesAlignDiagonally(l, r);
      }
    } else {
      var s, t := CompatibleTracesMayDiverge();
      var l, r := Normalize(s).value, Normalize(t).value;
      assert Compatible(l, r) && Half(l, r, |l|) <= m && !ComparesSilently(l, r);
    }
  }
}
