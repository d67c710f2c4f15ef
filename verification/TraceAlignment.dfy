/**
 Global alignment of two normalized traces: the quadratic dynamic program with two score
 rows, one traceback cell a pair and a finite stand-in for minus infinity, against the
 optimum over every alignment.
 */
module TraceAlignment {
  import opened Prelude

  datatype SemanticAnchor =
    | Start | Request | ModelResponse | ToolCall | ToolResult
    | StateChange | Checkpoint | Retry | Final | ErrorAnchor

  datatype NormalizedEvent = NormalizedEvent(
    eventId: string,
    anchor: SemanticAnchor,
    ordinal: nat,
    relativeMs: Option<real>,
    evidenceRef: Option<string>,
    digest: Option<string>)

  datatype Status = Match | ContentDifference | LeftOnly | RightOnly

  datatype Row = Row(left: Option<nat>, right: Option<nat>, anchor: SemanticAnchor, status: Status)

  datatype AlignmentResult = AlignmentResult(
    alignments: seq<Row>,
    matchedAnchors: nat,
    leftOnly: nat,
    rightOnly: nat,
    contentDifferences: nat,
    exactObservationMatches: nat)

  /** The two `RuntimeError`s of the walk back. */
  datatype WalkError = CrossAnchorDiagonal | InvalidDirection

  const GAP := -2
  const EXACT := 8
  const ANCHOR_ONLY := 4
  const CONTENT_DIFFERENCE := 1
  const NEGATIVE_INFINITY := -1_000_000_000
  const DIAGONAL := 1
  const UP := 2
  const LEFT := 3

  /** The sizes below which no true score can reach the stand-in for minus infinity. */
  const SAFE_EVENTS := 500_000_000

  type Trace = seq<NormalizedEvent>

  function DiagonalScore(left: NormalizedEvent, right: NormalizedEvent): int {
    if left.anchor != right.anchor then NEGATIVE_INFINITY
    else if left.digest.None? || right.digest.None? then ANCHOR_ONLY
    else if left.digest == right.digest then EXACT
    else CONTENT_DIFFERENCE
  }

  function AlignedStatus(left: NormalizedEvent, right: NormalizedEvent): Status {
    if left.digest.Some? && right.digest.Some? && left.digest != right.digest then ContentDifference else Match
  }

  // ----- What an alignment is, and what it is worth -----

  /** One row names an event of at least one side; a pair has equal anchors and its honest status. */
  predicate RowOk(row: Row, l: Trace, r: Trace) {
    match (row.left, row.right)
    case (Some(i), Some(j)) =>
      && i < |l| && j < |r| && l[i].anchor == r[j].anchor
      && row.anchor == l[i].anchor && row.status == AlignedStatus(l[i], r[j])
    case (Some(i), None) => i < |l| && row.anchor == l[i].anchor && row.status == LeftOnly
    case (None, Some(j)) => j < |r| && row.anchor == r[j].anchor && row.status == RightOnly
    case (None, None) => false
  }

  function Side(row: Row, leftSide: bool): Option<nat> {
    if leftSide then row.left else row.right
  }

  /** The ordinals that the rows name on one side, in row order. */
  function Ordinals(rows: seq<Row>, leftSide: bool): seq<nat> {
    if rows == [] then []
    else
      var last := rows[|rows| - 1];
      Ordinals(rows[..|rows| - 1], leftSide) + (if Side(last, leftSide).Some? then [Side(last, leftSide).value] else [])
  }

  function Range(n: nat): seq<nat> {
    seq(n, k => k)
  }

  /** A monotone alignment that names every event of both traces exactly once, in order. */
  predicate IsAlignment(rows: seq<Row>, l: Trace, r: Trace) {
    && (forall k :: 0 <= k < |rows| ==> RowOk(rows[k], l, r))
    && Ordinals(rows, true) == Range(|l|)
    && Ordinals(rows, false) == Range(|r|)
  }

  function RowScore(row: Row, l: Trace, r: Trace): int {
    if row.left.Some? && row.right.Some? && row.left.value < |l| && row.right.value < |r|
    then DiagonalScore(l[row.left.value], r[row.right.value])
    else GAP
  }

  function Score(rows: seq<Row>, l: Trace, r: Trace): int {
    if rows == [] then 0
    else Score(rows[..|rows| - 1], l, r) + RowScore(rows[|rows| - 1], l, r)
  }

  /** A best alignment: none scores more. */
  ghost predicate IsOptimal(rows: seq<Row>, l: Trace, r: Trace) {
    IsAlignment(rows, l, r) && forall other :: IsAlignment(other, l, r) ==> Score(other, l, r) <= Score(rows, l, r)
  }

  /** rows aligns the first i events of l with the first j events of r, read from the last row. */
  predicate Covers(rows: seq<Row>, l: Trace, r: Trace, i: nat, j: nat)
    requires i <= |l| && j <= |r|
  {
    if rows == [] then i == 0 && j == 0
    else
      var row := rows[|rows| - 1];
      var before := rows[..|rows| - 1];
      RowOk(row, l, r) &&
      match (row.left, row.right)
      case (Some(a), Some(b)) => i > 0 && j > 0 && a == i - 1 && b == j - 1 && Covers(before, l, r, i - 1, j - 1)
      case (Some(a), None) => i > 0 && a == i - 1 && Covers(before, l, r, i - 1, j)
      case (None, Some(b)) => j > 0 && b == j - 1 && Covers(before, l, r, i, j - 1)
      case (None, None) => false
  }

  lemma {:induction false} RangeEnds(s: seq<nat>, x: nat, n: nat)
    ensures s + [x] == Range(n) <==> n > 0 && x == n - 1 && s == Range(n - 1)
  {
    if s + [x] == Range(n) {
      assert |s + [x]| == n;
      assert (s + [x])[n - 1] == x;
      forall k | 0 <= k < |s| ensures s[k] == k { assert (s + [x])[k] == k; }
    }
  }

  lemma {:induction false} CoversIffPrefix(rows: seq<Row>, l: Trace, r: Trace, i: nat, j: nat)
    requires i <= |l| && j <= |r|
    ensures Covers(rows, l, r, i, j) <==>
            && (forall k :: 0 <= k < |rows| ==> RowOk(rows[k], l, r))
            && Ordinals(rows, true) == Range(i) && Ordinals(rows, false) == Range(j)
  {
    if rows == [] {
    } else {
      var row := rows[|rows| - 1];
      var before := rows[..|rows| - 1];
      assert rows == before + [row];
      if row.left.Some? { RangeEnds(Ordinals(before, true), row.left.value, i); }
      if row.right.Some? { RangeEnds(Ordinals(before, false), row.right.value, j); }
      var i' := if row.left.Some? then i - 1 else i;
      var j' := if row.right.Some? then j - 1 else j;
      if i' >= 0 && j' >= 0 {
        CoversIffPrefix(before, l, r, i', j');
      }
      assert (forall k :: 0 <= k < |rows| ==> RowOk(rows[k], l, r)) <==>
             (forall k :: 0 <= k < |before| ==> RowOk(before[k], l, r)) && RowOk(row, l, r) by {
        assert forall k :: 0 <= k < |before| ==> rows[k] == before[k];
      }
    }
  }

  lemma {:induction false} CoversIff(rows: seq<Row>, l: Trace, r: Trace)
    ensures IsAlignment(rows, l, r) <==> Covers(rows, l, r, |l|, |r|)
  {
    CoversIffPrefix(rows, l, r, |l|, |r|);
  }

  // ----- The program's score cells and directions -----

  /** The score the program stores for the first i and j events, finite minus infinity included. */
  function Cell(l: Trace, r: Trace, i: nat, j: nat): int
    requires i <= |l| && j <= |r|
    decreases i + j
  {
    if i == 0 then j * GAP
    else if j == 0 then i * GAP
    else
      var component := DiagonalScore(l[i - 1], r[j - 1]);
      var diagonal := if component != NEGATIVE_INFINITY then Cell(l, r, i - 1, j - 1) + component
        else NEGATIVE_INFINITY;
      Max(diagonal, Max(Cell(l, r, i - 1, j) + GAP, Cell(l, r, i, j - 1) + GAP))
  }

  function DiagonalCell(l: Trace, r: Trace, i: nat, j: nat): int
    requires 0 < i <= |l| && 0 < j <= |r|
  {
    var component := DiagonalScore(l[i - 1], r[j - 1]);
    if component != NEGATIVE_INFINITY then Cell(l, r, i - 1, j - 1) + component else NEGATIVE_INFINITY
  }

  /** The traceback byte of a cell; ties prefer the diagonal, then the left trace. */
  function Direction(l: Trace, r: Trace, i: nat, j: nat): int
    requires i <= |l| && j <= |r|
  {
    if i == 0 then (if j == 0 then 0 else LEFT)
    else if j == 0 then UP
    else if DiagonalCell(l, r, i, j) == Cell(l, r, i, j) then DIAGONAL
    else if Cell(l, r, i - 1, j) + GAP == Cell(l, r, i, j) then UP
    else LEFT
  }

  /** The walk back from (i, j), with the rows already produced to its right. */
  function Walk(l: Trace, r: Trace, i: nat, j: nat, done: seq<Row>): Result<seq<Row>, WalkError>
    requires i <= |l| && j <= |r|
    decreases i + j
  {
    if i == 0 && j == 0 then Ok(done)
    else
      var direction := Direction(l, r, i, j);
      if i > 0 && j > 0 && direction == DIAGONAL then
        if l[i - 1].anchor != r[j - 1].anchor then Err(CrossAnchorDiagonal)
        else Walk(l, r, i - 1, j - 1,
                  [Row(Some(i - 1), Some(j - 1), l[i - 1].anchor, AlignedStatus(l[i - 1], r[j - 1]))] + done)
      else if i > 0 && (direction == UP || j == 0) then
        Walk(l, r, i - 1, j, [Row(Some(i - 1), None, l[i - 1].anchor, LeftOnly)] + done)
      else if j > 0 && (direction == LEFT || i == 0) then
        Walk(l, r, i, j - 1, [Row(None, Some(j - 1), r[j - 1].anchor, RightOnly)] + done)
      else Err(InvalidDirection)
  }

  predicate ExactMatch(row: Row, l: Trace, r: Trace) {
    && row.status == Match && row.left.Some? && row.right.Some?
    && row.left.value < |l| && row.right.value < |r|
    && l[row.left.value].digest.Some? && l[row.left.value].digest == r[row.right.value].digest
  }

  function Summarize(rows: seq<Row>, l: Trace, r: Trace): AlignmentResult {
    AlignmentResult(
      rows,
      Count((row: Row) => row.status == Match || row.status == ContentDifference, rows),
      Count((row: Row) => row.status == LeftOnly, rows),
      Count((row: Row) => row.status == RightOnly, rows),
      Count((row: Row) => row.status == ContentDifference, rows),
      Count((row: Row) => ExactMatch(row, l, r), rows))
  }

  function Align(l: Trace, r: Trace): Result<AlignmentResult, WalkError> {
    match Walk(l, r, |l|, |r|, [])
    case Ok(rows) => Ok(Summarize(rows, l, r))
    case Err(e) => Err(e)
  }

  // ----- Optimality -----

  /** No alignment of the two prefixes is worth more than the stored score. */
  lemma {:induction false} CellBoundsEveryAlignment(rows: seq<Row>, l: Trace, r: Trace, i: nat, j: nat)
    requires i <= |l| && j <= |r| && Covers(rows, l, r, i, j)
    ensures Score(rows, l, r) <= Cell(l, r, i, j)
    decreases |rows|
  {
    if rows == [] {
    } else {
      var row := rows[|rows| - 1];
      var before := rows[..|rows| - 1];
      match (row.left, row.right) {
        case (Some(a), Some(b)) => CellBoundsEveryAlignment(before, l, r, i - 1, j - 1);
        case (Some(a), None) => CellBoundsEveryAlignment(before, l, r, i - 1, j);
        case (None, Some(b)) => CellBoundsEveryAlignment(before, l, r, i, j - 1);
      }
    }
  }

  lemma {:induction false} ScoreSnoc(rows: seq<Row>, row: Row, l: Trace, r: Trace)
    ensures Score(rows + [row], l, r) == Score(rows, l, r) + RowScore(row, l, r)
  {
    assert (rows + [row])[..|rows|] == rows;
  }

  lemma {:induction false} CoversSnoc(rows: seq<Row>, row: Row, l: Trace, r: Trace, i: nat, j: nat)
    requires i <= |l| && j <= |r| && RowOk(row, l, r)
    requires row.left.Some? ==> i > 0 && row.left.value == i - 1
    requires row.right.Some? ==> j > 0 && row.right.value == j - 1
    requires Covers(rows, l, r, if row.left.Some? then i - 1 else i, if row.right.Some? then j - 1 else j)
    ensures Covers(rows + [row], l, r, i, j)
  {
    var all := rows + [row];
    assert all[..|all| - 1] == rows;
  }

  /** The outcome w adds rows, an alignment of the two prefixes worth c, in front of done. */
  ghost predicate Adds(w: Result<seq<Row>, WalkError>, c: int, rows: seq<Row>, l: Trace, r: Trace, i: nat, j: nat,
      done: seq<Row>)
    requires i <= |l| && j <= |r|
  {
    w == Ok(rows + done) && Covers(rows, l, r, i, j) && Score(rows, l, r) == c
  }

  lemma {:induction false} AddsSnoc(w: Result<seq<Row>, WalkError>, c: int, before: seq<Row>, row: Row, l: Trace,
      r: Trace, i: nat, j: nat, done: seq<Row>)
    requires i <= |l| && j <= |r| && RowOk(row, l, r)
    requires row.left.Some? ==> i > 0 && row.left.value == i - 1
    requires row.right.Some? ==> j > 0 && row.right.value == j - 1
    requires Adds(w, c, before, l, r, if row.left.Some? then i - 1 else i, if row.right.Some? then j - 1
            else j, [row] + done)
    ensures Adds(w, c + RowScore(row, l, r), before + [row], l, r, i, j, done)
  {
    assert before + ([row] + done) == (before + [row]) + done;
    CoversSnoc(before, row, l, r, i, j);
    ScoreSnoc(before, row, l, r);
  }

  /** A walk that ends produces an alignment worth exactly the stored score. */
  lemma {:induction false} WalkAttainsCell(l: Trace, r: Trace, i: nat, j: nat, done: seq<Row>) returns (rows: seq<Row>)
    requires i <= |l| && j <= |r| && Walk(l, r, i, j, done).Ok?
    ensures Adds(Walk(l, r, i, j, done), Cell(l, r, i, j), rows, l, r, i, j, done)
    decreases i + j
  {
    if i == 0 && j == 0 {
      rows := [];
      assert rows + done == done;
    } else {
      var row, i', j' := WalkStep(l, r, i, j, done);
      var before := WalkAttainsCell(l, r, i', j', [row] + done);
      AddsSnoc(Walk(l, r, i, j, done), Cell(l, r, i', j'), before, row, l, r, i, j, done);
      rows := before + [row];
    }
  }

  /** One step of a successful walk: the row it emits, where it goes, and the score it accounts for. */
  lemma {:induction false} WalkStep(l: Trace, r: Trace, i: nat, j: nat, done: seq<Row>)
    returns (row: Row, i': nat, j': nat)
    requires i <= |l| && j <= |r| && i + j > 0 && Walk(l, r, i, j, done).Ok?
    ensures RowOk(row, l, r)
    ensures row.left.Some? ==> i > 0 && row.left.value == i - 1
    ensures row.right.Some? ==> j > 0 && row.right.value == j - 1
    ensures i' == (if row.left.Some? then i - 1 else i) && j' == (if row.right.Some? then j - 1 else j)
    ensures Walk(l, r, i, j, done) == Walk(l, r, i', j', [row] + done)
    ensures Cell(l, r, i, j) == Cell(l, r, i', j') + RowScore(row, l, r)
  {
    var direction := Direction(l, r, i, j);
    if i > 0 && j > 0 && direction == DIAGONAL {
      row := Row(Some(i - 1), Some(j - 1), l[i - 1].anchor, AlignedStatus(l[i - 1], r[j - 1]));
      i', j' := i - 1, j - 1;
    } else if i > 0 && (direction == UP || j == 0) {
      row := Row(Some(i - 1), None, l[i - 1].anchor, LeftOnly);
      i', j' := i - 1, j;
    } else {
      row := Row(None, Some(j - 1), r[j - 1].anchor, RightOnly);
      i', j' := i, j - 1;
    }
  }

  /** Whenever the program returns, what it returns is an alignment and no alignment beats it. */
  lemma {:induction false} AlignIsOptimal(l: Trace, r: Trace)
    requires Align(l, r).Ok?
    ensures IsOptimal(Align(l, r).value.alignments, l, r)
  {
    var best := WalkAttainsCell(l, r, |l|, |r|, []);
    assert best + [] == best;
    CoversIff(best, l, r);
    forall other | IsAlignment(other, l, r) ensures Score(other, l, r) <= Score(best, l, r) {
      CoversIff(other, l, r);
      CellBoundsEveryAlignment(other, l, r, |l|, |r|);
    }
  }

  // ----- When the program returns -----

  lemma {:induction false} CellLowerBound(l: Trace, r: Trace, i: nat, j: nat)
    requires i <= |l| && j <= |r|
    ensures Cell(l, r, i, j) >= GAP * (i + j)
    decreases i + j
  {
    if i > 0 && j > 0 {
      CellLowerBound(l, r, i - 1, j);
    }
  }

  /** The second `RuntimeError` is unreachable for every pair of traces. */
  lemma {:induction false} DirectionAlwaysValid(l: Trace, r: Trace, i: nat, j: nat, done: seq<Row>)
    requires i <= |l| && j <= |r|
    ensures Walk(l, r, i, j, done) != Err(InvalidDirection)
    decreases i + j
  {
    if i > 0 && j > 0 && Direction(l, r, i, j) == DIAGONAL && l[i - 1].anchor == r[j - 1].anchor {
      DirectionAlwaysValid(l, r, i - 1, j - 1,
                           [Row(Some(i - 1), Some(j - 1), l[i - 1].anchor, AlignedStatus(l[i - 1], r[j - 1]))] + done);
    } else if i > 0 && (Direction(l, r, i, j) == UP || j == 0) {
      DirectionAlwaysValid(l, r, i - 1, j, [Row(Some(i - 1), None, l[i - 1].anchor, LeftOnly)] + done);
    } else if j > 0 && (Direction(l, r, i, j) == LEFT || i == 0) {
      DirectionAlwaysValid(l, r, i, j - 1, [Row(None, Some(j - 1), r[j - 1].anchor, RightOnly)] + done);
    }
  }

  lemma {:induction false} WalkReturnsWhenSmall(l: Trace, r: Trace, i: nat, j: nat, done: seq<Row>)
    requires i <= |l| && j <= |r|
    requires i == 0 || j == 0 || i + j < SAFE_EVENTS
    ensures Walk(l, r, i, j, done).Ok?
    decreases i + j
  {
    if i == 0 && j == 0 {
    } else if i > 0 && j > 0 && Direction(l, r, i, j) == DIAGONAL {
      CellLowerBound(l, r, i - 1, j);
      assert Cell(l, r, i, j) > NEGATIVE_INFINITY;
      assert l[i - 1].anchor == r[j - 1].anchor;
      WalkReturnsWhenSmall(l, r, i - 1, j - 1,
                           [Row(Some(i - 1), Some(j - 1), l[i - 1].anchor, AlignedStatus(l[i - 1], r[j - 1]))] + done);
    } else if i > 0 && (Direction(l, r, i, j) == UP || j == 0) {
      WalkReturnsWhenSmall(l, r, i - 1, j, [Row(Some(i - 1), None, l[i - 1].anchor, LeftOnly)] + done);
    } else {
      WalkReturnsWhenSmall(l, r, i, j - 1, [Row(None, Some(j - 1), r[j - 1].anchor, RightOnly)] + done);
    }
  }

  ghost predicate DisjointAnchors(l: Trace, r: Trace) {
    forall i, j :: 0 <= i < |l| && 0 <= j < |r| ==> l[i].anchor != r[j].anchor
  }

  lemma {:induction false} DisjointCell(l: Trace, r: Trace, i: nat, j: nat)
    requires i <= |l| && j <= |r| && DisjointAnchors(l, r)
    ensures Cell(l, r, i, j) == if i == 0 || j == 0 then GAP * (i + j) else Max(NEGATIVE_INFINITY, GAP * (i + j))
    decreases i + j
  {
    if i > 0 && j > 0 {
      DisjointCell(l, r, i - 1, j);
      DisjointCell(l, r, i, j - 1);
    }
  }

  /** Traces without a common anchor make the walk fail as soon as every true score is below the stand-in. */
  lemma {:induction false} DisjointTracesFail(l: Trace, r: Trace)
    requires DisjointAnchors(l, r) && |l| > 0 && |r| > 0 && |l| + |r| >= 500_000_000
    ensures Align(l, r) == Err(CrossAnchorDiagonal)
  {
    DisjointCell(l, r, |l|, |r|);
  }

  /** Every pair of traces with n and m events is aligned without a `RuntimeError`. */
  ghost predicate SizesAreSafe(n: nat, m: nat) {
    forall l: Trace, r: Trace :: |l| == n && |r| == m ==> Align(l, r).Ok?
  }

  /** Exactly which trace sizes the finite stand-in for minus infinity supports. */
  lemma {:induction false} SafeSizesExactly(n: nat, m: nat)
    ensures SizesAreSafe(n, m) <==> n == 0 || m == 0 || n + m < 500_000_000
  {
    if n == 0 || m == 0 || n + m < SAFE_EVENTS {
      forall l: Trace, r: Trace | |l| == n && |r| == m ensures Align(l, r).Ok? {
        WalkReturnsWhenSmall(l, r, n, m, []);
      }
    } else {
      var a := NormalizedEvent("a", Start, 0, None, None, None);
      var l: Trace := seq(n, _ => a);
      var r: Trace := seq(m, _ => a.(anchor := Final));
      DisjointTracesFail(l, r);
    }
  }

  // ----- Conservation of the published counts -----

  lemma {:induction false} CountSnoc<T>(p: T -> bool, s: seq<T>, x: T)
    ensures Count(p, s + [x]) == Count(p, s) + (if p(x) then 1 else 0)
  {
    CountAppend(p, s, [x]);
    assert [x][1..] == [];
  }

  lemma {:induction false} CoveredCounts(rows: seq<Row>, l: Trace, r: Trace, i: nat, j: nat)
    requires i <= |l| && j <= |r| && Covers(rows, l, r, i, j)
    ensures var summary := Summarize(rows, l, r);
            && summary.matchedAnchors + summary.leftOnly == i
            && summary.matchedAnchors + summary.rightOnly == j
            && summary.contentDifferences + summary.exactObservationMatches <= summary.matchedAnchors
    decreases |rows|
  {
    if rows != [] {
      var row := rows[|rows| - 1];
      var before := rows[..|rows| - 1];
      assert rows == before + [row];
      CoveredCounts(before, l, r, if row.left.Some? then i - 1 else i, if row.right.Some? then j - 1 else j);
      CountSnoc((row: Row) => row.status == Match || row.status == ContentDifference, before, row);
      CountSnoc((row: Row) => row.status == LeftOnly, before, row);
      CountSnoc((row: Row) => row.status == RightOnly, before, row);
      CountSnoc((row: Row) => row.status == ContentDifference, before, row);
      CountSnoc((row: Row) => ExactMatch(row, l, r), before, row);
    }
  }

  /** Every event of each trace is counted exactly once, paired or alone. */
  lemma {:induction false} CountsAccountForEveryEvent(l: Trace, r: Trace)
    requires Align(l, r).Ok?
    ensures var a := Align(l, r).value;
            && a.matchedAnchors + a.leftOnly == |l|
            && a.matchedAnchors + a.rightOnly == |r|
            && a.contentDifferences + a.exactObservationMatches <= a.matchedAnchors
  {
    AlignIsOptimal(l, r);
    CoversIff(Align(l, r).value.alignments, l, r);
    CoveredCounts(Align(l, r).value.alignments, l, r, |l|, |r|);
  }

  // ----- The program itself: two score rows and one traceback byte a pair -----

  /** Row-major position of (row, column) in a table that is width wide and n + 1 high. */
  lemma {:induction false} FlatIndex(row: nat, column: nat, width: nat, n: nat)
    requires row <= n && column < width
    ensures 0 <= row * width <= row * width + column < (n + 1) * width
    ensures (row * width + column) / width == row && (row * width + column) % width == column
  {
    assert (n + 1) * width == row * width + (n - row) * width + width;
    assert (n - row) * width >= 0;
    DivModUnique(row, column, width);
  }

  lemma {:induction false} MultipleApart(d: int, width: nat)
    ensures d >= 1 ==> d * width >= width
    ensures d <= -1 ==> d * width + width <= 0
  {
    assert (d - 1) * width == d * width - width;
    assert (d + 1) * width == d * width + width;
  }

  lemma {:induction false} DivModUnique(q: nat, m: nat, width: nat)
    requires m < width
    ensures (q * width + m) / width == q && (q * width + m) % width == m
  {
    var k := q * width + m;
    var d := k / width - q;
    assert k == k / width * width + k % width;
    assert d * width == m - k % width;
    MultipleApart(d, width);
  }

  lemma {:induction false} FlatRow(k: nat, width: nat, n: nat)
    requires width > 0 && k < (n + 1) * width
    ensures k / width <= n && k % width < width
  {
    var d := k / width - n;
    assert k == k / width * width + k % width;
    assert d * width == k / width * width - n * width;
    assert (n + 1) * width == n * width + width;
    MultipleApart(d, width);
  }

  function DirectionAt(l: Trace, r: Trace, k: nat): int
    requires k < (|l| + 1) * (|r| + 1)
  {
    FlatRow(k, |r| + 1, |l|);
    Direction(l, r, k / (|r| + 1), k % (|r| + 1))
  }

  lemma {:induction false} DirectionAtFlat(l: Trace, r: Trace, i: nat, j: nat)
    requires i <= |l| && j <= |r|
    ensures 0 <= i * (|r| + 1) + j < (|l| + 1) * (|r| + 1)
    ensures DirectionAt(l, r, i * (|r| + 1) + j) == Direction(l, r, i, j)
  {
    FlatIndex(i, j, |r| + 1, |l|);
  }

  /** Row `row` of the table starts at `base`. */
  ghost predicate RowAt(table: seq<int>, base: nat, l: Trace, r: Trace, row: nat)
    requires row <= |l|
  {
    base + |r| < |table| && forall c :: 0 <= c <= |r| ==> table[base + c] == Direction(l, r, row, c)
  }

  ghost predicate TableRow(table: seq<int>, l: Trace, r: Trace, row: nat)
    requires row <= |l|
  {
    RowAt(table, row * (|r| + 1), l, r, row)
  }

  /** Every row of the table sits at its row-major offset. */
  ghost predicate IsTable(table: seq<int>, l: Trace, r: Trace) {
    && |table| == (|l| + 1) * (|r| + 1)
    && forall row: nat :: row <= |l| ==> TableRow(table, l, r, row)
  }

  lemma {:induction false} TableExists(l: Trace, r: Trace) returns (table: seq<int>)
    ensures IsTable(table, l, r)
  {
    table := seq((|l| + 1) * (|r| + 1), k requires 0 <= k < (|l| + 1) * (|r| + 1) => DirectionAt(l, r, k));
    forall row: nat | row <= |l| ensures TableRow(table, l, r, row) {
      FlatIndex(row, |r|, |r| + 1, |l|);
      forall c | 0 <= c <= |r|
        ensures table[row * (|r| + 1) + c] == Direction(l, r, row, c)
      {
        DirectionAtFlat(l, r, row, c);
      }
    }
  }

  /** The score and direction of one pair from its three neighbours. */
  method ScorePair(left: NormalizedEvent, right: NormalizedEvent, corner: int, above: int, before: int,
      ghost l: Trace, ghost r: Trace, ghost i: nat, ghost j: nat)
    returns (best: int, direction: int)
    requires 0 < i <= |l| && 0 < j <= |r| && left == l[i - 1] && right == r[j - 1]
    requires corner == Cell(l, r, i - 1, j - 1) && above == Cell(l, r, i - 1, j) && before == Cell(l, r, i, j - 1)
    ensures best == Cell(l, r, i, j) && direction == Direction(l, r, i, j)
  {
    var component := DiagonalScore(left, right);
    var diagonal := if component != NEGATIVE_INFINITY then corner + component else NEGATIVE_INFINITY;
    var up := above + GAP;
    var across := before + GAP;
    best := Max(diagonal, Max(up, across));
    direction := if diagonal == best then DIAGONAL else if up == best then UP else LEFT;
    assert diagonal == DiagonalCell(l, r, i, j);
  }

  /** The first cells of a score row. */
  ghost predicate ScoreRow(scores: seq<int>, l: Trace, r: Trace, row: nat)
    requires row <= |l| && |scores| <= |r| + 1
  {
    forall c {:trigger scores[c]} :: 0 <= c < |scores| ==> scores[c] == Cell(l, r, row, c)
  }

  /** The inner loop: one score row and one row of the table, from the score row above. */
  method FillRow(l: Trace, r: Trace, row: nat, base: nat, previous: array<int>, traceback: array<int>,
      ghost table: seq<int>)
    returns (current: array<int>)
    requires 1 <= row <= |l| && previous != traceback
    requires previous.Length == |r| + 1 && ScoreRow(previous[..], l, r, row - 1)
    requires |table| == traceback.Length && RowAt(table, base, l, r, row)
    requires traceback[..base] == table[..base]
    modifies traceback
    ensures fresh(current) && current.Length == |r| + 1 && ScoreRow(current[..], l, r, row)
    ensures traceback[..base + |r| + 1] == table[..base + |r| + 1]
  {
    ghost var above := previous[..];
    current := new int[|r| + 1](index => if index == 0 then row * GAP else 0);
    assert Direction(l, r, row, 0) == table[base + 0];
    traceback[base] := UP;
    for column := 1 to |r| + 1
      invariant previous[..] == above
      invariant ScoreRow(current[..column], l, r, row)
      invariant traceback[..base + column] == table[..base + column]
    {
      assert above[column - 1] == previous[column - 1] && above[column] == previous[column];
      assert current[..column][column - 1] == current[column - 1];
      var best, direction := ScorePair(l[row - 1], r[column - 1], previous[column - 1], previous[column],
                                       current[column - 1], l, r, row, column);
      assert direction == table[base + column];
      ghost var before := current[..column];
      current[column] := best;
      traceback[base + column] := direction;
      assert current[..column + 1] == before + [best];
    }
    assert current[..] == current[..|r| + 1];
  }

  lemma {:induction false} NextOffset(row: nat, width: nat)
    ensures row * width + width == (row + 1) * width && 0 * width == 0
  {
  }

  /** The top row of the table points left, except in its corner. */
  lemma {:induction false} TopRow(table: seq<int>, l: Trace, r: Trace)
    requires IsTable(table, l, r)
    ensures |r| < |table| && table[0] == 0 && forall c :: 1 <= c <= |r| ==> table[c] == LEFT
  {
    NextOffset(0, |r| + 1);
    assert TableRow(table, l, r, 0);
    forall c | 0 <= c <= |r| ensures table[c] == Direction(l, r, 0, c) {
      assert table[0 + c] == Direction(l, r, 0, c);
    }
  }

  method FillTraceback(l: Trace, r: Trace) returns (traceback: array<int>)
    ensures fresh(traceback) && IsTable(traceback[..], l, r)
  {
    var n, m := |l|, |r|;
    var width := m + 1;
    ghost var table := TableExists(l, r);
    traceback := new int[(n + 1) * width](_ => 0);
    var previous := new int[width](index => index * GAP);
    TopRow(table, l, r);
    for column := 1 to width
      invariant forall c :: 0 <= c < width ==> previous[c] == c * GAP
      invariant traceback[..column] == table[..column]
    {
      traceback[column] := LEFT;
    }
    var base := width;
    NextOffset(0, width);
    for row := 1 to n + 1
      invariant fresh(previous) && previous != traceback
      invariant previous.Length == width && ScoreRow(previous[..], l, r, row - 1)
      invariant base == row * width <= traceback.Length && traceback[..base] == table[..base]
    {
      assert TableRow(table, l, r, row);
      previous := FillRow(l, r, row, base, previous, traceback, table);
      NextOffset(row, width);
      base := base + width;
    }
    assert traceback[..] == table;
  }

  lemma {:induction false} ReverseSnoc(rows: seq<Row>, row: Row)
    ensures Reverse(rows + [row]) == [row] + Reverse(rows)
  {
  }

  lemma {:induction false} TableAt(table: seq<int>, l: Trace, r: Trace, i: nat, j: nat)
    requires IsTable(table, l, r) && i <= |l| && j <= |r|
    ensures 0 <= i * (|r| + 1) + j < |table| && table[i * (|r| + 1) + j] == Direction(l, r, i, j)
  {
    FlatIndex(i, j, |r| + 1, |l|);
    assert TableRow(table, l, r, i);
  }

  method WalkBack(l: Trace, r: Trace, traceback: array<int>) returns (walked: Result<seq<Row>, WalkError>)
    requires IsTable(traceback[..], l, r)
    ensures walked == Walk(l, r, |l|, |r|, [])
  {
    var width := |r| + 1;
    var rows: seq<Row> := [];
    var row, column := |l|, |r|;
    assert Reverse(rows) == [];
    while row > 0 || column > 0
      invariant 0 <= row <= |l| && 0 <= column <= |r|
      invariant Walk(l, r, row, column, Reverse(rows)) == Walk(l, r, |l|, |r|, [])
      decreases row + column
    {
      TableAt(traceback[..], l, r, row, column);
      var direction := traceback[row * width + column];
      var next: Row;
      if row > 0 && column > 0 && direction == DIAGONAL {
        if l[row - 1].anchor != r[column - 1].anchor {
          return Err(CrossAnchorDiagonal);
        }
        next := Row(Some(row - 1), Some(column - 1), l[row - 1].anchor, AlignedStatus(l[row - 1], r[column - 1]));
        ReverseSnoc(rows, next);
        rows := rows + [next];
        row, column := row - 1, column - 1;
      } else if row > 0 && (direction == UP || column == 0) {
        next := Row(Some(row - 1), None, l[row - 1].anchor, LeftOnly);
        ReverseSnoc(rows, next);
        rows := rows + [next];
        row := row - 1;
      } else if column > 0 && (direction == LEFT || row == 0) {
        next := Row(None, Some(column - 1), r[column - 1].anchor, RightOnly);
        ReverseSnoc(rows, next);
        rows := rows + [next];
        column := column - 1;
      } else {
        return Err(InvalidDirection);
      }
    }
    return Ok(Reverse(rows));
  }

  /** `align_traces`: on every input the optimum or the one reachable error, and the optimum below the size bound. */
  method AlignTraces(l: Trace, r: Trace) returns (result: Result<AlignmentResult, WalkError>)
    ensures result == Align(l, r)
    ensures result.Ok? || result == Err(CrossAnchorDiagonal)
    ensures |l| == 0 || |r| == 0 || |l| + |r| < 500_000_000 ==> result.Ok?
    ensures result.Ok? ==> IsOptimal(result.value.alignments, l, r)
  {
    var traceback := FillTraceback(l, r);
    var walked := WalkBack(l, r, traceback);
    match walked {
      case Err(e) =>
        DirectionAlwaysValid(l, r, |l|, |r|, []);
        assert e != InvalidDirection && e == CrossAnchorDiagonal;
        result := Err(e);
      case Ok(rows) =>
        AlignIsOptimal(l, r);
        result := Ok(Summarize(rows, l, r));
    }
    if |l| == 0 || |r| == 0 || |l| + |r| < SAFE_EVENTS {
      WalkReturnsWhenSmall(l, r, |l|, |r|, []);
    }
  }
}
