/** How scaffolding that only one of two traces has bears on their comparison. */
module TraceScaffolding {
  import opened Prelude
  import opened Sorting
  import opened TraceAlignment
  import opened TraceDiagonal
  import opened TraceNormalization
  import opened TraceDivergence
  import opened TraceSilence

  /** How many of the first n events are kept. */
  function Kept(extra: Anchors, t: Trace, n: nat): nat
    requires n <= |t|
  {
    if n == 0 then 0 else Kept(extra, t, n - 1) + (if t[n - 1].anchor in extra then 0 else 1)
  }

  lemma {:induction false} KeptGrows(extra: Anchors, t: Trace, m: nat, n: nat)
    requires m <= n <= |t|
    ensures Kept(extra, t, m) <= Kept(extra, t, n) <= n
  {
    if m < n { KeptGrows(extra, t, m, n - 1); } else if n > 0 { KeptGrows(extra, t, n - 1, n - 1); }
  }

  /** Event n of t, if it is kept, is at its place in core. */
  predicate KeptAt(extra: Anchors, t: Trace, core: Trace, n: nat)
    requires n < |t|
  {
    t[n].anchor !in extra ==> Kept(extra, t, n) < |core| && core[Kept(extra, t, n)] == t[n]
  }

  /** core lists the kept events of t. */
  predicate IsCoreOf(extra: Anchors, t: Trace, core: Trace) {
    |core| == Kept(extra, t, |t|) && forall n :: 0 <= n < |t| ==> KeptAt(extra, t, core, n)
  }

  lemma {:induction false} KeptIsStripped(extra: Anchors, t: Trace, n: nat)
    requires n <= |t|
    ensures Kept(extra, t, n) == |Strip(extra, t[..n])|
  {
    if n > 0 {
      KeptIsStripped(extra, t, n - 1);
      StripLast(extra, t, n);
    }
  }

  lemma {:induction false} StripIsCore(extra: Anchors, t: Trace)
    ensures IsCoreOf(extra, t, Strip(extra, t))
  {
    assert t[..|t|] == t;
    KeptIsStripped(extra, t, |t|);
    forall n | 0 <= n < |t| ensures KeptAt(extra, t, Strip(extra, t), n) {
      KeptIsStripped(extra, t, n);
      StripLast(extra, t, n + 1);
      assert t == t[..n + 1] + t[n + 1..];
      KeepAppend(IsCore(extra), t[..n + 1], t[n + 1..]);
    }
  }

  /** Two traces, the anchors to drop, and what is left of the traces without them. */
  datatype Split = Split(extra: Anchors, l: Trace, r: Trace, coreL: Trace, coreR: Trace)

  predicate Splits(s: Split) {
    IsCoreOf(s.extra, s.l, s.coreL) && IsCoreOf(s.extra, s.r, s.coreR)
  }

  function SplitOf(extra: Anchors, l: Trace, r: Trace): (s: Split)
    ensures Splits(s)
  {
    StripIsCore(extra, l);
    StripIsCore(extra, r);
    Split(extra, l, r, Strip(extra, l), Strip(extra, r))
  }

  function KeptL(s: Split, i: nat): (n: nat)
    requires Splits(s) && i <= |s.l|
    ensures n <= |s.coreL| && n <= i
  {
    KeptGrows(s.extra, s.l, i, |s.l|);
    KeptGrows(s.extra, s.l, 0, i);
    Kept(s.extra, s.l, i)
  }

  function KeptR(s: Split, j: nat): (n: nat)
    requires Splits(s) && j <= |s.r|
    ensures n <= |s.coreR| && n <= j
  {
    KeptGrows(s.extra, s.r, j, |s.r|);
    KeptGrows(s.extra, s.r, 0, j);
    Kept(s.extra, s.r, j)
  }

  /** The score of two prefixes once the extra events are dropped. */
  function CoreCell(s: Split, i: nat, j: nat): int
    requires Splits(s) && i <= |s.l| && j <= |s.r|
  {
    Cell(s.coreL, s.coreR, KeptL(s, i), KeptR(s, j))
  }

  /** What the gaps of the extra events in two prefixes cost. */
  function GapCost(s: Split, i: nat, j: nat): nat
    requires Splits(s) && i <= |s.l| && j <= |s.r|
  {
    2 * (i - KeptL(s, i)) + 2 * (j - KeptR(s, j))
  }

  predicate CostsItsGaps(s: Split, i: nat, j: nat)
    requires Splits(s) && i <= |s.l| && j <= |s.r|
  {
    Cell(s.l, s.r, i, j) == CoreCell(s, i, j) - GapCost(s, i, j)
  }

  lemma {:induction false} CellStep(l: Trace, r: Trace, i: nat, j: nat)
    requires i <= |l| && j <= |r|
    ensures i > 0 ==> Cell(l, r, i, j) >= Cell(l, r, i - 1, j) + GAP
    ensures j > 0 ==> Cell(l, r, i, j) >= Cell(l, r, i, j - 1) + GAP
  {
  }

  /** Dropping the last event of the left prefix. */
  lemma {:induction false} LeftSkips(s: Split, i: nat, j: nat)
    requires Splits(s) && 0 < i <= |s.l| && 0 < j <= |s.r| && s.l[i - 1].anchor in s.extra
    ensures CoreCell(s, i, j) == CoreCell(s, i - 1, j) && GapCost(s, i, j) == GapCost(s, i - 1, j) + 2
    ensures CoreCell(s, i, j - 1) - GapCost(s, i, j - 1) <= CoreCell(s, i - 1, j) - GapCost(s, i - 1, j)
  {
    CellStep(s.coreL, s.coreR, KeptL(s, i), KeptR(s, j));
  }

  lemma {:induction false} RightSkips(s: Split, i: nat, j: nat)
    requires Splits(s) && 0 < i <= |s.l| && 0 < j <= |s.r| && s.r[j - 1].anchor in s.extra
    ensures CoreCell(s, i, j) == CoreCell(s, i, j - 1) && GapCost(s, i, j) == GapCost(s, i, j - 1) + 2
    ensures CoreCell(s, i - 1, j) - GapCost(s, i - 1, j) <= CoreCell(s, i, j - 1) - GapCost(s, i, j - 1)
  {
    CellStep(s.coreL, s.coreR, KeptL(s, i), KeptR(s, j));
  }

  /** Between events that cannot be paired a cell is reached from the better neighbour. */
  lemma {:induction false} UnpairedCell(l: Trace, r: Trace, i: nat, j: nat, better: int)
    requires 0 < i <= |l| && 0 < j <= |r| && l[i - 1].anchor != r[j - 1].anchor && i + j < SAFE_EVENTS
    requires Cell(l, r, i - 1, j) <= better && Cell(l, r, i, j - 1) <= better
    requires Cell(l, r, i - 1, j) == better || Cell(l, r, i, j - 1) == better
    ensures Cell(l, r, i, j) == better + GAP
  {
    CellMax(l, r, i, j);
    CellLowerBound(l, r, i, j);
  }

  lemma {:induction false} ExtraCosts(s: Split, i: nat, j: nat)
    requires Splits(s) && 0 < i <= |s.l| && 0 < j <= |s.r|
    requires s.l[i - 1].anchor != s.r[j - 1].anchor && i + j < SAFE_EVENTS
    requires s.l[i - 1].anchor in s.extra || s.r[j - 1].anchor in s.extra
    requires CostsItsGaps(s, i - 1, j) && CostsItsGaps(s, i, j - 1)
    ensures CostsItsGaps(s, i, j)
  {
    if s.l[i - 1].anchor in s.extra {
      LeftSkips(s, i, j);
      UnpairedCell(s.l, s.r, i, j, Cell(s.l, s.r, i - 1, j));
    } else {
      RightSkips(s, i, j);
      UnpairedCell(s.l, s.r, i, j, Cell(s.l, s.r, i, j - 1));
    }
  }

  predicate BothKept(s: Split, i: nat, j: nat) {
    0 < i <= |s.l| && 0 < j <= |s.r| && s.l[i - 1].anchor !in s.extra && s.r[j - 1].anchor !in s.extra
  }

  /** Two kept events are the last ones of their cores' prefixes. */
  lemma {:induction false} CoreEvents(s: Split, i: nat, j: nat)
    requires Splits(s) && BothKept(s, i, j)
    ensures KeptL(s, i) == KeptL(s, i - 1) + 1 && s.coreL[KeptL(s, i - 1)] == s.l[i - 1]
    ensures KeptR(s, j) == KeptR(s, j - 1) + 1 && s.coreR[KeptR(s, j - 1)] == s.r[j - 1]
  {
    assert KeptAt(s.extra, s.l, s.coreL, i - 1) && KeptAt(s.extra, s.r, s.coreR, j - 1);
  }

  lemma {:induction false} CoreMax(s: Split, i: nat, j: nat)
    requires Splits(s) && BothKept(s, i, j)
    ensures CoreCell(s, i, j) == Best(s.l[i - 1].anchor == s.r[j - 1].anchor,
                                      CoreCell(s, i - 1, j - 1) + DiagonalScore(s.l[i - 1], s.r[j - 1]),
                                      CoreCell(s, i - 1, j) + GAP, CoreCell(s, i, j - 1) + GAP)
    ensures GapCost(s, i, j) == GapCost(s, i - 1, j) == GapCost(s, i, j - 1) == GapCost(s, i - 1, j - 1)
  {
    CoreEvents(s, i, j);
    CellMax(s.coreL, s.coreR, KeptL(s, i), KeptR(s, j));
  }

  lemma {:induction false} CoreCosts(s: Split, i: nat, j: nat)
    requires Splits(s) && BothKept(s, i, j) && i + j < SAFE_EVENTS
    requires CostsItsGaps(s, i - 1, j) && CostsItsGaps(s, i, j - 1) && CostsItsGaps(s, i - 1, j - 1)
    ensures CostsItsGaps(s, i, j)
  {
    CoreMax(s, i, j);
    LowerCell(s.l, s.r, i, j, GapCost(s, i, j), CoreCell(s, i, j), CoreCell(s, i - 1, j - 1), CoreCell(s, i - 1, j),
              CoreCell(s, i, j - 1));
  }

  /** Lowering the three neighbours of a cell by one cost lowers the cell by it. */
  lemma {:induction false} LowerCell(l: Trace, r: Trace, i: nat, j: nat, cost: nat, core: int, diagonal: int,
      up: int, across: int)
    requires 0 < i <= |l| && 0 < j <= |r| && i + j < SAFE_EVENTS
    requires Cell(l, r, i - 1, j - 1) == diagonal - cost
    requires Cell(l, r, i - 1, j) == up - cost && Cell(l, r, i, j - 1) == across - cost
    requires core == Best(l[i - 1].anchor == r[j - 1].anchor, diagonal + DiagonalScore(l[i - 1], r[j - 1]), up + GAP,
                          across + GAP)
    ensures Cell(l, r, i, j) == core - cost
  {
    CellMax(l, r, i, j);
    CellLowerBound(l, r, i - 1, j);
  }

  /** No event with one of these anchors has a partner on the other side. */
  predicate OneSided(extra: Anchors, l: Trace, r: Trace) {
    forall i, j :: 0 <= i < |l| && 0 <= j < |r| && l[i].anchor in extra ==> l[i].anchor != r[j].anchor
  }

  /** One-sided extra events cost their gaps and change no other score. */
  lemma {:induction false} ScaffoldingCostsItsGaps(s: Split, i: nat, j: nat)
    requires Splits(s) && OneSided(s.extra, s.l, s.r) && i <= |s.l| && j <= |s.r| && i + j < SAFE_EVENTS
    ensures CostsItsGaps(s, i, j)
    decreases i + j
  {
    if i > 0 && j > 0 {
      ScaffoldingCostsItsGaps(s, i - 1, j - 1);
      ScaffoldingCostsItsGaps(s, i - 1, j);
      ScaffoldingCostsItsGaps(s, i, j - 1);
      if BothKept(s, i, j) {
        CoreCosts(s, i, j);
      } else {
        ExtraCosts(s, i, j);
      }
    }
  }

  /** With at most three half-observed positions the diagonal is strictly better than its neighbours. */
  lemma {:induction false} StrictDiagonal(l: Trace, r: Trace, n: nat)
    requires Compatible(l, r) && 0 < n <= |l| && Half(l, r, n) <= 3
    ensures Cell(l, r, n, n) == Cell(l, r, n - 1, n - 1) + DiagonalScore(l[n - 1], r[n - 1])
    ensures Cell(l, r, n - 1, n) + GAP < Cell(l, r, n, n)
  {
    DiagonalLoss(l, r, n);
    LossBound(l, r, n - 1, n);
    assert CompatibleEvents(l[n - 1], r[n - 1]);
  }

  lemma {:induction false} HalfGrows(l: Trace, r: Trace, m: nat, n: nat)
    requires m <= n <= |l| && n <= |r|
    ensures Half(l, r, m) <= Half(l, r, n)
  {
    if m < n { HalfGrows(l, r, m, n - 1); }
  }

  /** The traces agree around the extra events, with at most three half-observed positions. */
  predicate FewHalves(s: Split) {
    Compatible(s.coreL, s.coreR) && Half(s.coreL, s.coreR, |s.coreL|) <= 3
  }

  lemma {:induction false} CrossAnchorsAvoidDiagonal(l: Trace, r: Trace, i: nat, j: nat)
    requires 0 < i <= |l| && 0 < j <= |r| && i + j < SAFE_EVENTS && l[i - 1].anchor != r[j - 1].anchor
    ensures Direction(l, r, i, j) == if Cell(l, r, i - 1, j) + GAP == Cell(l, r, i, j) then UP else LEFT
  {
    CellLowerBound(l, r, i, j);
  }

  lemma {:induction false} LeftExtraGoesUp(s: Split, i: nat, j: nat)
    requires Splits(s) && OneSided(s.extra, s.l, s.r) && 0 < i <= |s.l| && 0 < j <= |s.r| && i + j < SAFE_EVENTS
    requires s.l[i - 1].anchor in s.extra
    ensures Direction(s.l, s.r, i, j) == UP
  {
    ScaffoldingCostsItsGaps(s, i, j);
    ScaffoldingCostsItsGaps(s, i - 1, j);
    LeftSkips(s, i, j);
    CrossAnchorsAvoidDiagonal(s.l, s.r, i, j);
  }

  lemma {:induction false} RightExtraGoesLeft(s: Split, i: nat, j: nat)
    requires Splits(s) && OneSided(s.extra, s.l, s.r) && 0 < i <= |s.l| && 0 < j <= |s.r| && i + j < SAFE_EVENTS
    requires s.l[i - 1].anchor !in s.extra && s.r[j - 1].anchor in s.extra && KeptL(s, i) == KeptR(s, j) && FewHalves(s)
    ensures Direction(s.l, s.r, i, j) == LEFT
  {
    ScaffoldingCostsItsGaps(s, i, j);
    ScaffoldingCostsItsGaps(s, i - 1, j);
    CrossAnchorsAvoidDiagonal(s.l, s.r, i, j);
    HalfGrows(s.coreL, s.coreR, KeptL(s, i), |s.coreL|);
    StrictDiagonal(s.coreL, s.coreR, KeptL(s, i));
    assert KeptL(s, i - 1) == KeptL(s, i) - 1;
    assert GapCost(s, i - 1, j) == GapCost(s, i, j);
  }

  lemma {:induction false} KeptGoDiagonal(s: Split, i: nat, j: nat)
    requires Splits(s) && OneSided(s.extra, s.l, s.r) && BothKept(s, i, j) && i + j < SAFE_EVENTS
    requires KeptL(s, i) == KeptR(s, j) && FewHalves(s)
    ensures Direction(s.l, s.r, i, j) == DIAGONAL && CompatibleEvents(s.l[i - 1], s.r[j - 1])
  {
    var n := KeptL(s, i);
    CoreEvents(s, i, j);
    assert CompatibleEvents(s.coreL[n - 1], s.coreR[n - 1]);
    ScaffoldingCostsItsGaps(s, i, j);
    ScaffoldingCostsItsGaps(s, i - 1, j - 1);
    HalfGrows(s.coreL, s.coreR, n, |s.coreL|);
    StrictDiagonal(s.coreL, s.coreR, n);
    assert DiagonalCell(s.l, s.r, i, j) == Cell(s.l, s.r, i, j);
  }

  /** A walk from a pair of prefixes with equally many kept events reports nothing. */
  lemma {:induction false} ScaffoldedWalk(s: Split, i: nat, j: nat, done: seq<Row>)
    requires Splits(s) && OneSided(s.extra, s.l, s.r) && i <= |s.l| && j <= |s.r| && i + j < SAFE_EVENTS
    requires FewHalves(s) && s.extra <= SCAFFOLDING && KeptL(s, i) == KeptR(s, j) && Silent(done)
    ensures Walk(s.l, s.r, i, j, done).Ok? && Silent(Walk(s.l, s.r, i, j, done).value)
    decreases i + j
  {
    if i > 0 && s.l[i - 1].anchor in s.extra {
      if j > 0 { LeftExtraGoesUp(s, i, j); }
      ScaffoldedWalk(s, i - 1, j, [Row(Some(i - 1), None, s.l[i - 1].anchor, LeftOnly)] + done);
    } else if j > 0 && s.r[j - 1].anchor in s.extra {
      if i > 0 { RightExtraGoesLeft(s, i, j); }
      ScaffoldedWalk(s, i, j - 1, [Row(None, Some(j - 1), s.r[j - 1].anchor, RightOnly)] + done);
    } else if i > 0 && j > 0 {
      CoreEvents(s, i, j);
      KeptGoDiagonal(s, i, j);
      ScaffoldedWalk(s, i - 1, j - 1, [Row(Some(i - 1), Some(j - 1), s.l[i - 1].anchor, Match)] + done);
    }
  }

  ghost predicate ScaffoldedSilentUpTo(extra: Anchors, m: nat) {
    forall l, r :: Scaffolded(extra, l, r, m) ==> ComparesSilently(l, r)
  }

  /**
   Compatible traces around scaffolding of their own, below the size at which scores can reach the
   stand-in for minus infinity.
   */
  predicate Scaffolded(extra: Anchors, l: Trace, r: Trace, m: nat) {
    && OneSided(extra, l, r) && |l| + |r| < 500_000_000
    && Compatible(Strip(extra, l), Strip(extra, r)) && Half(Strip(extra, l), Strip(extra, r), |Strip(extra, l)|) <= m
  }

  lemma {:induction false} FewHalvesIgnoreScaffolding(extra: Anchors, l: Trace, r: Trace)
    requires Scaffolded(extra, l, r, 3) && extra <= SCAFFOLDING
    ensures ComparesSilently(l, r)
  {
    ScaffoldedWalk(SplitOf(extra, l, r), |l|, |r|, []);
  }

  lemma {:induction false} StripNothing(extra: Anchors, t: Trace)
    requires forall e :: e in t ==> e.anchor !in extra
    ensures Strip(extra, t) == t
  {
    KeepAll(IsCore(extra), t);
  }

  /** Four checkpoints tie with the shifted pairing. */
  lemma {:induction false} FourTie(l: Trace, r: Trace)
    requires |l| == 4 && Alternating(l, r) && Compatible(l, r) && Half(l, r, 4) == 4
    ensures Cell(l, r, 3, 4) + GAP == Cell(l, r, 4, 4)
  {
    DiagonalLoss(l, r, 4);
    ShiftedWorth(l, r, 3);
    LastGap(l, r, 4);
    FourWeights(l, r, 4);
  }

  lemma {:induction false} FourCheckpoints() returns (l: Trace, r: Trace)
    ensures |l| == 4 && Alternating(l, r) && Compatible(l, r) && Half(l, r, 4) == 4
    ensures forall e :: e in l + r ==> e.anchor == Checkpoint
  {
    l, r := AlternatingTraces(4);
  }

  lemma {:induction false} FourWeights(l: Trace, r: Trace, n: nat)
    requires n <= |l| && n <= |r| && Half(l, r, n) == n
    ensures TotalWeight(l, n) + TotalWeight(r, n) == 12 * n
  {
    if n > 0 {
      HalfAtMost(l, r, n - 1);
      FourWeights(l, r, n - 1);
    }
  }

  lemma {:induction false} HalfAtMost(l: Trace, r: Trace, n: nat)
    requires n <= |l| && n <= |r|
    ensures Half(l, r, n) <= n
  {
    if n > 0 { HalfAtMost(l, r, n - 1); }
  }

  /** A trailing extra event on one side breaks a tie against the diagonal. */
  lemma {:induction false} TrailingExtraIsReported(extra: Anchors) returns (l: Trace, r: Trace)
    requires extra != {} && extra <= SCAFFOLDING
    ensures Scaffolded(extra, l, r, 4) && !ComparesSilently(l, r)
  {
    var core;
    l, core := FourCheckpoints();
    var anchor :| anchor in extra;
    var last := NormalizedEvent("s", anchor, 4, None, None, None);
    FourTie(l, core);
    ExtraAppended(extra, l, core, last);
    r := core + [last];
    TieIsReported(extra, l, core, last, |l|);
    AroundExtra(extra, l, core, r);
  }

  lemma {:induction false} TieIsReported(extra: Anchors, l: Trace, core: Trace, last: NormalizedEvent, n: nat)
    requires 0 < n < 100 && |l| == |core| == n && last.anchor in extra && OneSided(extra, l, core + [last])
    requires Strip(extra, l) == l && Strip(extra, core + [last]) == core
    requires extra <= SCAFFOLDING && l[n - 1].anchor == Checkpoint
    requires Cell(l, core, n - 1, n) + GAP == Cell(l, core, n, n)
    ensures !ComparesSilently(l, core + [last])
  {
    TrailingExtraTurnsUp(SplitOf(extra, l, core + [last]), n);
    LastRowIsReported(l, core + [last]);
  }

  lemma {:induction false} AroundExtra(extra: Anchors, l: Trace, core: Trace, r: Trace)
    requires OneSided(extra, l, r) && |l| + |r| < SAFE_EVENTS && Strip(extra, l) == l && Strip(extra, r) == core
    requires Compatible(l, core)
    ensures Scaffolded(extra, l, r, Half(l, core, |l|))
  {
  }

  lemma {:induction false} ExtraAppended(extra: Anchors, l: Trace, core: Trace, last: NormalizedEvent)
    requires (forall e :: e in l + core ==> e.anchor == Checkpoint) && last.anchor in extra && extra <= SCAFFOLDING
    ensures Strip(extra, l) == l && Strip(extra, core + [last]) == core && OneSided(extra, l, core + [last])
  {
    assert forall e :: e in l ==> e in l + core;
    StripNothing(extra, l);
    StripNothing(extra, core);
    KeepSnoc(IsCore(extra), core, last);
    assert core + [] == core;
  }

  lemma {:induction false} TrailingExtraTurnsUp(s: Split, n: nat)
    requires Splits(s) && s.coreL == s.l && 0 < n < 100 && |s.l| == |s.coreR| == n && |s.r| == n + 1
    requires OneSided(s.extra, s.l, s.r) && s.r[n].anchor in s.extra && s.l[n - 1].anchor !in s.extra
    requires Cell(s.l, s.coreR, n - 1, n) + GAP == Cell(s.l, s.coreR, n, n)
    ensures Direction(s.l, s.r, n, n + 1) == UP
  {
    ScaffoldingCostsItsGaps(s, n, n + 1);
    ScaffoldingCostsItsGaps(s, n - 1, n + 1);
    assert KeptL(s, n) == n && KeptL(s, n - 1) == n - 1 && KeptR(s, n + 1) == n;
    CrossAnchorsAvoidDiagonal(s.l, s.r, n, n + 1);
  }

  lemma {:induction false} LastRowIsReported(l: Trace, r: Trace)
    requires 0 < |l| && 0 < |r| && !Scaffolding(l[|l| - 1].anchor) && Direction(l, r, |l|, |r|) == UP
    ensures !ComparesSilently(l, r)
  {
    var row := Row(Some(|l| - 1), None, l[|l| - 1].anchor, LeftOnly);
    assert [row] + [] == [row];
    assert Walk(l, r, |l|, |r|, []) == Walk(l, r, |l| - 1, |r|, [row]);
    if Walk(l, r, |l|, |r|, []).Ok? {
      var rows := WalkAttainsCell(l, r, |l| - 1, |r|, [row]);
      assert (rows + [row])[|rows|] == row && Meaningful(row);
    }
  }

  /** No bound helps when the same scaffolding stands at different places: pairing it costs the pairing of an event. */
  lemma {:induction false} MovedScaffoldingIsReported() returns (l: Trace, r: Trace)
    ensures Compatible(Strip(SCAFFOLDING, l), Strip(SCAFFOLDING, r))
    ensures Half(Strip(SCAFFOLDING, l), Strip(SCAFFOLDING, r), |Strip(SCAFFOLDING, l)|) == 0
    ensures Align(l, r).Ok? && !ComparesSilently(l, r)
  {
    var start := NormalizedEvent("s", Start, 0, None, None, None);
    var event := NormalizedEvent("e", Checkpoint, 1, None, None, None);
    l, r := [start] + [event], [event] + [start];
    KeepSnoc(IsCore(SCAFFOLDING), [start], event);
    KeepSnoc(IsCore(SCAFFOLDING), [event], start);
    assert [start][..0] == [] && [event][..0] == [];
    assert Strip(SCAFFOLDING, l) == [event] && Strip(SCAFFOLDING, r) == [event];
    assert Direction(l, r, 2, 2) == UP;
    WalkReturnsWhenSmall(l, r, 2, 2, []);
    LastRowIsReported(l, r);
  }

  /**
   Around scaffolding of any anchors that only one side has, compatible traces are silent with up
   to three half-observed positions, and not with four.
   */
  lemma {:induction false} ScaffoldedSilenceExactly(extra: Anchors, m: nat)
    requires extra != {} && extra <= SCAFFOLDING
    ensures ScaffoldedSilentUpTo(extra, m) <==> m <= 3
  {
    if m <= 3 {
      forall l, r | Scaffolded(extra, l, r, m) ensures ComparesSilently(l, r) {
        FewHalvesIgnoreScaffolding(extra, l, r);
      }
    } else {
      var l, r := TrailingExtraIsReported(extra);
      assert Scaffolded(extra, l, r, m);
    }
  }
}
