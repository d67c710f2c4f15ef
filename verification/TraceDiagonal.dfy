/** When the program pairs every event of two traces with its own position. */
module TraceDiagonal {
  import opened Prelude
  import opened TraceAlignment

  predicate CompatibleEvents(a: NormalizedEvent, b: NormalizedEvent) {
    a.anchor == b.anchor && (a.digest.None? || b.digest.None? || a.digest == b.digest)
  }

  predicate Compatible(l: Trace, r: Trace) {
    |l| == |r| && forall k :: 0 <= k < |l| ==> CompatibleEvents(l[k], r[k])
  }

  /** The first n positions at which exactly one side has a digest. */
  function Half(l: Trace, r: Trace, n: nat): nat
    requires n <= |l| && n <= |r|
  {
    if n == 0 then 0 else Half(l, r, n - 1) + (if l[n - 1].digest.None? <==> r[n - 1].digest.None? then 0 else 1)
  }

  // ----- What a cell loses -----

  /** Twice the most that a pairing of this event can be worth to it. */
  function Weight(e: NormalizedEvent): int {
    if e.digest.Some? then EXACT else ANCHOR_ONLY
  }

  function TotalWeight(t: Trace, n: nat): nat
    requires n <= |t|
  {
    if n == 0 then 0 else TotalWeight(t, n - 1) + Weight(t[n - 1])
  }

  /** What the best alignment of two prefixes stays below the two weights. */
  function Loss(l: Trace, r: Trace, i: nat, j: nat): int
    requires i <= |l| && j <= |r|
  {
    TotalWeight(l, i) + TotalWeight(r, j) - 2 * Cell(l, r, i, j)
  }

  function GapLoss(e: NormalizedEvent): int { Weight(e) - 2 * GAP }

  function PairLoss(a: NormalizedEvent, b: NormalizedEvent): int { Weight(a) + Weight(b) - 2 * DiagonalScore(a, b) }

  /** Compatible pairs lose nothing, or 4 when one digest is missing; other pairs lose at least 14. */
  lemma {:induction false} PairLossExactly(a: NormalizedEvent, b: NormalizedEvent)
    ensures CompatibleEvents(a, b) ==> PairLoss(a, b) == if a.digest.None? <==> b.digest.None? then 0 else 4
    ensures !CompatibleEvents(a, b) ==> PairLoss(a, b) >= 14
  {
  }

  lemma {:induction false} LossStep(l: Trace, r: Trace, i: nat, j: nat)
    requires 0 < i <= |l| && 0 < j <= |r|
    ensures var pair := if l[i - 1].anchor == r[j - 1].anchor
            then Loss(l, r, i - 1, j - 1) + PairLoss(l[i - 1], r[j - 1])
                        else TotalWeight(l, i) + TotalWeight(r, j) - 2 * NEGATIVE_INFINITY;
            && Loss(l, r, i, j) <= pair
            && Loss(l, r, i, j) <= Loss(l, r, i - 1, j) + GapLoss(l[i - 1])
            && Loss(l, r, i, j) <= Loss(l, r, i, j - 1) + GapLoss(r[j - 1])
            && (Loss(l, r, i, j) == pair || Loss(l, r, i, j) == Loss(l, r, i - 1, j) + GapLoss(l[i - 1])
                || Loss(l, r, i, j) == Loss(l, r, i, j - 1) + GapLoss(r[j - 1]))
            && (Direction(l, r, i, j) == DIAGONAL <==> Loss(l, r, i, j) == pair)
  {
  }

  /** Every step away from the diagonal loses at least 8. */
  lemma {:induction false} LossBound(l: Trace, r: Trace, i: nat, j: nat)
    requires i <= |l| && j <= |r|
    ensures Loss(l, r, i, j) >= if i == j then 0 else if i == j + 1 || j == i + 1 then 8 else 16
    decreases i + j
  {
    if i > 0 && j > 0 {
      LossBound(l, r, i - 1, j - 1);
      LossBound(l, r, i - 1, j);
      LossBound(l, r, i, j - 1);
      LossStep(l, r, i, j);
      PairLossExactly(l[i - 1], r[j - 1]);
    } else {
      EdgeWeight(l, i);
      EdgeWeight(r, j);
    }
  }

  lemma {:induction false} EdgeWeight(t: Trace, n: nat)
    requires n <= |t|
    ensures TotalWeight(t, n) >= ANCHOR_ONLY * n
  {
    if n > 0 { EdgeWeight(t, n - 1); }
  }

  /** The three-way maximum of a cell. */
  function Best(paired: bool, diagonal: int, up: int, across: int): int {
    Max(if paired then diagonal else NEGATIVE_INFINITY, Max(up, across))
  }

  lemma {:induction false} CellMax(l: Trace, r: Trace, i: nat, j: nat)
    requires 0 < i <= |l| && 0 < j <= |r|
    ensures Cell(l, r, i, j) == Best(l[i - 1].anchor == r[j - 1].anchor,
                                     Cell(l, r, i - 1, j - 1) + DiagonalScore(l[i - 1], r[j - 1]),
                                     Cell(l, r, i - 1, j) + GAP, Cell(l, r, i, j - 1) + GAP)
  {
  }

  lemma {:induction false} CellSwaps(l: Trace, r: Trace, i: nat, j: nat)
    requires i <= |l| && j <= |r|
    ensures Cell(l, r, i, j) == Cell(r, l, j, i)
    decreases i + j
  {
    if i > 0 && j > 0 {
      CellSwaps(l, r, i - 1, j - 1);
      CellSwaps(l, r, i - 1, j);
      CellSwaps(l, r, i, j - 1);
      SwapStep(l, r, i, j, Cell(l, r, i - 1, j - 1), Cell(l, r, i - 1, j), Cell(l, r, i, j - 1));
    }
  }

  /** Two cells with the same neighbours, transposed. */
  lemma {:induction false} SwapStep(l: Trace, r: Trace, i: nat, j: nat, diagonal: int, up: int, across: int)
    requires 0 < i <= |l| && 0 < j <= |r|
    requires Cell(l, r, i - 1, j - 1) == diagonal == Cell(r, l, j - 1, i - 1)
    requires Cell(l, r, i - 1, j) == up == Cell(r, l, j, i - 1)
    requires Cell(l, r, i, j - 1) == across == Cell(r, l, j - 1, i)
    ensures Cell(l, r, i, j) == Cell(r, l, j, i)
  {
    CellMax(l, r, i, j);
    CellMax(r, l, j, i);
    ScoreSwaps(l[i - 1], r[j - 1]);
  }

  lemma {:induction false} ScoreSwaps(a: NormalizedEvent, b: NormalizedEvent)
    ensures DiagonalScore(a, b) == DiagonalScore(b, a)
  {
  }

  lemma {:induction false} HalfSwaps(l: Trace, r: Trace, n: nat)
    requires n <= |l| && n <= |r|
    ensures Half(l, r, n) == Half(r, l, n)
  {
    if n > 0 { HalfSwaps(l, r, n - 1); }
  }

  // ----- Up to five halves, the diagonal loses least -----

  /** An extra event beside the first n positions, whose loss says whether it was observed. */
  predicate ShiftLoss(l: Trace, r: Trace, n: nat, loss: int)
    requires n < |l| && n < |r|
  {
    loss >= 8 && (loss < 12 ==> (Half(l, r, n) % 2 == 0 <==> r[n].digest.None?))
  }

  lemma {:induction false} GapLosesMore(l: Trace, r: Trace, n: nat, shift: int)
    requires n < |l| && n < |r| && ShiftLoss(l, r, n, shift) && Half(l, r, n + 1) <= 5
    ensures shift + GapLoss(l[n]) >= 4 * Half(l, r, n + 1)
  {
  }

  /** The main diagonal is optimal up to n, and chosen. */
  lemma {:induction false} DiagonalLoss(l: Trace, r: Trace, n: nat)
    requires Compatible(l, r) && n <= |l| && Half(l, r, n) <= 5
    ensures Loss(l, r, n, n) == 4 * Half(l, r, n)
    ensures n > 0 ==> Direction(l, r, n, n) == DIAGONAL
    decreases 2 * n
  {
    if n > 0 {
      HalfSwaps(l, r, n);
      HalfSwaps(l, r, n - 1);
      DiagonalLoss(l, r, n - 1);
      BesideLoss(l, r, n - 1);
      BesideLoss(r, l, n - 1);
      CellSwaps(l, r, n, n - 1);
      GapLosesMore(l, r, n - 1, Loss(l, r, n - 1, n));
      GapLosesMore(r, l, n - 1, Loss(l, r, n, n - 1));
      PairLossExactly(l[n - 1], r[n - 1]);
      LossStep(l, r, n, n);
    }
  }

  /** A cheap shift starts with an unobserved event, or continues a cheap shift with a pair that loses nothing. */
  lemma {:induction false} CheapShift(l: Trace, r: Trace, i: nat)
    requires 0 < i <= |l| && i < |r| && Loss(l, r, i, i) == 4 * Half(l, r, i) && Loss(l, r, i, i + 1) < 12
    ensures (Half(l, r, i) == 0 && r[i].digest.None?)
            || (Loss(l, r, i - 1, i) < 12 && (l[i - 1].digest.None? <==> r[i].digest.None?))
  {
    LossStep(l, r, i, i + 1);
    LossBound(l, r, i - 1, i);
    LossBound(l, r, i - 1, i + 1);
    PairLossExactly(l[i - 1], r[i]);
    EdgeWeight(l, i);
    EdgeWeight(r, i + 1);
  }

  /** Next to the diagonal, losing less than 12 fixes whether the extra event has a digest. */
  lemma {:induction false} BesideLoss(l: Trace, r: Trace, i: nat)
    requires Compatible(l, r) && i < |l| && Half(l, r, i) <= 5
    ensures ShiftLoss(l, r, i, Loss(l, r, i, i + 1))
    decreases 2 * i + 1
  {
    LossBound(l, r, i, i + 1);
    if i > 0 && Loss(l, r, i, i + 1) < 12 {
      DiagonalLoss(l, r, i);
      BesideLoss(l, r, i - 1);
      CheapShift(l, r, i);
    }
  }

  // ----- The walk along the diagonal -----

  function DiagonalRows(t: Trace, n: nat): seq<Row>
    requires n <= |t|
  {
    seq(n, k requires 0 <= k < n => Row(Some(k), Some(k), t[k].anchor, Match))
  }

  lemma {:induction false} DiagonalWalk(l: Trace, r: Trace, n: nat, done: seq<Row>)
    requires Compatible(l, r) && n <= |l| && Half(l, r, n) <= 5
    ensures Walk(l, r, n, n, done) == Ok(DiagonalRows(l, n) + done)
  {
    if n == 0 {
      assert DiagonalRows(l, 0) + done == done;
    } else {
      DiagonalLoss(l, r, n);
      var row := Row(Some(n - 1), Some(n - 1), l[n - 1].anchor, Match);
      DiagonalWalk(l, r, n - 1, [row] + done);
      assert DiagonalRows(l, n - 1) + ([row] + done) == DiagonalRows(l, n) + done;
    }
  }

  /** Compatible traces of any length with at most five half-observed positions align position by position. */
  lemma {:induction false} FewHalvesAlignDiagonally(l: Trace, r: Trace)
    requires Compatible(l, r) && Half(l, r, |l|) <= 5
    ensures Align(l, r).Ok? && Align(l, r).value.alignments == DiagonalRows(l, |l|)
  {
    DiagonalWalk(l, r, |l|, []);
    assert DiagonalRows(l, |l|) + [] == DiagonalRows(l, |l|);
  }

  // ----- A trace aligned with itself -----

  lemma {:induction false} NoHalves(t: Trace, n: nat)
    requires n <= |t|
    ensures Half(t, t, n) == 0
  {
    if n > 0 { NoHalves(t, n - 1); }
  }

  lemma {:induction false} DiagonalCounts(t: Trace, n: nat)
    requires n <= |t|
    ensures var summary := Summarize(DiagonalRows(t, n), t, t);
            && summary.matchedAnchors == n && summary.contentDifferences == 0
            && summary.exactObservationMatches == Count((e: NormalizedEvent) => e.digest.Some?, t[..n])
  {
    if n > 0 {
      DiagonalCounts(t, n - 1);
      var before := DiagonalRows(t, n - 1);
      var row := Row(Some(n - 1), Some(n - 1), t[n - 1].anchor, Match);
      assert DiagonalRows(t, n) == before + [row];
      assert t[..n] == t[..n - 1] + [t[n - 1]];
      CountSnoc((row: Row) => row.status == Match || row.status == ContentDifference, before, row);
      CountSnoc((row: Row) => row.status == ContentDifference, before, row);
      CountSnoc((row: Row) => ExactMatch(row, t, t), before, row);
      CountSnoc((e: NormalizedEvent) => e.digest.Some?, t[..n - 1], t[n - 1]);
    }
  }

  /** Any trace, of any length, aligns with itself on the main diagonal. */
  lemma {:induction false} SelfAlignmentIsIdentity(t: Trace)
    ensures Align(t, t).Ok? && Align(t, t).value.alignments == DiagonalRows(t, |t|)
    ensures var a := Align(t, t).value;
            && a.matchedAnchors == |t| && a.leftOnly == 0 && a.rightOnly == 0 && a.contentDifferences == 0
            && a.exactObservationMatches == Count((e: NormalizedEvent) => e.digest.Some?, t)
  {
    NoHalves(t, |t|);
    FewHalvesAlignDiagonally(t, t);
    DiagonalCounts(t, |t|);
    assert t[..|t|] == t;
    CountsAccountForEveryEvent(t, t);
  }
}
