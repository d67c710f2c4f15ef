/** What the alignment maximizes, counted from anchors and digests alone, and how ties are settled. */
module TraceOptimum {
  import opened Prelude
  import opened TraceAlignment

  // ----- The four kinds of row -----

  predicate Pairs(row: Row, l: Trace, r: Trace) {
    row.left.Some? && row.right.Some? && row.left.value < |l| && row.right.value < |r|
  }

  /** Both events were observed. */
  predicate BothObserved(row: Row, l: Trace, r: Trace) {
    Pairs(row, l, r) && l[row.left.value].digest.Some? && r[row.right.value].digest.Some?
  }

  function SameObservation(l: Trace, r: Trace): Row -> bool {
    (row: Row) => BothObserved(row, l, r) && l[row.left.value].digest == r[row.right.value].digest
  }

  function OtherObservation(l: Trace, r: Trace): Row -> bool {
    (row: Row) => BothObserved(row, l, r) && l[row.left.value].digest != r[row.right.value].digest
  }

  function AnchorAlone(l: Trace, r: Trace): Row -> bool {
    (row: Row) => Pairs(row, l, r) && !BothObserved(row, l, r)
  }

  function Unpaired(): Row -> bool { (row: Row) => row.left.None? || row.right.None? }

  /** Eight for the same observation, one for different ones, four for a pair without both, and two lost for a gap. */
  function Worth(rows: seq<Row>, l: Trace, r: Trace): int {
    8 * Count(SameObservation(l, r), rows) + Count(OtherObservation(l, r), rows) + 4 * Count(AnchorAlone(l, r), rows)
    - 2 * Count(Unpaired(), rows)
  }

  /** The same sum from the published counters. */
  function CountersWorth(a: AlignmentResult): int {
    8 * a.exactObservationMatches + a.contentDifferences
    + 4 * (a.matchedAnchors - a.exactObservationMatches - a.contentDifferences) - 2 * (a.leftOnly + a.rightOnly)
  }

  lemma {:induction false} WorthSnoc(rows: seq<Row>, row: Row, l: Trace, r: Trace)
    ensures Worth(rows + [row], l, r) == Worth(rows, l, r) + Worth([row], l, r)
  {
    CountAppend(SameObservation(l, r), rows, [row]);
    CountAppend(OtherObservation(l, r), rows, [row]);
    CountAppend(AnchorAlone(l, r), rows, [row]);
    CountAppend(Unpaired(), rows, [row]);
  }

  lemma {:induction false} WorthOfRow(row: Row, l: Trace, r: Trace)
    requires RowOk(row, l, r)
    ensures Worth([row], l, r) == RowScore(row, l, r)
  {
    CountOne(SameObservation(l, r), row);
    CountOne(OtherObservation(l, r), row);
    CountOne(AnchorAlone(l, r), row);
    CountOne(Unpaired(), row);
  }

  lemma {:induction false} CountOne<T>(f: T -> bool, x: T)
    ensures Count(f, [x]) == if f(x) then 1 else 0
  {
    assert [x][1..] == [];
  }

  lemma {:induction false} WorthIsScore(rows: seq<Row>, l: Trace, r: Trace)
    requires forall k :: 0 <= k < |rows| ==> RowOk(rows[k], l, r)
    ensures Worth(rows, l, r) == Score(rows, l, r)
  {
    if rows != [] {
      var before, row := rows[..|rows| - 1], rows[|rows| - 1];
      assert rows == before + [row];
      WorthIsScore(before, l, r);
      WorthSnoc(before, row, l, r);
      WorthOfRow(row, l, r);
    }
  }

  lemma {:induction false} CountersOfRow(row: Row, l: Trace, r: Trace)
    requires RowOk(row, l, r)
    ensures CountersWorth(Summarize([row], l, r)) == Worth([row], l, r)
  {
    CountOne(SameObservation(l, r), row);
    CountOne(OtherObservation(l, r), row);
    CountOne(AnchorAlone(l, r), row);
    CountOne(Unpaired(), row);
    CountOne((row: Row) => row.status == Match || row.status == ContentDifference, row);
    CountOne((row: Row) => row.status == LeftOnly, row);
    CountOne((row: Row) => row.status == RightOnly, row);
    CountOne((row: Row) => row.status == ContentDifference, row);
    CountOne((row: Row) => ExactMatch(row, l, r), row);
  }

  lemma {:induction false} CountersSnoc(rows: seq<Row>, row: Row, l: Trace, r: Trace)
    ensures CountersWorth(Summarize(rows + [row], l, r))
            == CountersWorth(Summarize(rows, l, r)) + CountersWorth(Summarize([row], l, r))
  {
    CountAppend((row: Row) => row.status == Match || row.status == ContentDifference, rows, [row]);
    CountAppend((row: Row) => row.status == LeftOnly, rows, [row]);
    CountAppend((row: Row) => row.status == RightOnly, rows, [row]);
    CountAppend((row: Row) => row.status == ContentDifference, rows, [row]);
    CountAppend((row: Row) => ExactMatch(row, l, r), rows, [row]);
  }

  lemma {:induction false} CountersAreWorth(rows: seq<Row>, l: Trace, r: Trace)
    requires forall k :: 0 <= k < |rows| ==> RowOk(rows[k], l, r)
    ensures CountersWorth(Summarize(rows, l, r)) == Worth(rows, l, r)
  {
    if rows != [] {
      var before, row := rows[..|rows| - 1], rows[|rows| - 1];
      assert rows == before + [row];
      CountersAreWorth(before, l, r);
      CountersSnoc(before, row, l, r);
      CountersOfRow(row, l, r);
      WorthSnoc(before, row, l, r);
    }
  }

  /**
   The published counters are worth at least as much as any alignment of the two traces: eight
   points for each pair of equal observations, one for a pair of different ones, four for a pair
   that was not observed on both sides, and minus two for each event left alone.
   */
  lemma {:induction false} CountersAreBest(l: Trace, r: Trace, other: seq<Row>)
    requires Align(l, r).Ok? && IsAlignment(other, l, r)
    ensures CountersWorth(Align(l, r).value) >= Worth(other, l, r)
  {
    var a := Align(l, r).value;
    AlignIsOptimal(l, r);
    CountersAreWorth(a.alignments, l, r);
    WorthIsScore(a.alignments, l, r);
    WorthIsScore(other, l, r);
  }

  // ----- Which of the best alignments is returned -----

  /** A pair comes before an event of the left trace alone, and that before one of the right trace alone. */
  function Rank(row: Row): nat {
    if row.left.Some? && row.right.Some? then 0 else if row.left.Some? then 1 else 2
  }

  /** Read from the end, rows has the smaller rank where the two first differ. */
  predicate ComesFirst(rows: seq<Row>, other: seq<Row>)
    decreases |rows|
  {
    if rows == [] || other == [] then rows == other
    else
      var row, last := rows[|rows| - 1], other[|other| - 1];
      if row == last then ComesFirst(rows[..|rows| - 1], other[..|other| - 1]) else Rank(row) < Rank(last)
  }

  /** The row stands at the end of alignments of the first i and j events. */
  predicate Ends(row: Row, l: Trace, r: Trace, i: nat, j: nat) {
    && RowOk(row, l, r)
    && (row.left.Some? ==> i > 0 && row.left.value == i - 1) && (row.right.Some? ==> j > 0 && row.right.value == j - 1)
  }

  /** The score of what is left before such a row. */
  function CellBefore(row: Row, l: Trace, r: Trace, i: nat, j: nat): int
    requires i <= |l| && j <= |r| && Ends(row, l, r, i, j)
  {
    Cell(l, r, if row.left.Some? then i - 1 else i, if row.right.Some? then j - 1 else j)
  }

  lemma {:induction false} ChoiceBound(l: Trace, r: Trace, i: nat, j: nat, last: Row)
    requires i <= |l| && j <= |r| && Ends(last, l, r, i, j)
    ensures Cell(l, r, i, j) >= CellBefore(last, l, r, i, j) + RowScore(last, l, r)
  {
  }

  /** The direction of a cell at which the row is one of the best choices. */
  lemma {:induction false} BestChoiceDirection(l: Trace, r: Trace, i: nat, j: nat, last: Row)
    requires i <= |l| && j <= |r| && Ends(last, l, r, i, j)
    requires Cell(l, r, i, j) == CellBefore(last, l, r, i, j) + RowScore(last, l, r)
    ensures Rank(last) == 0 ==> Direction(l, r, i, j) == DIAGONAL
    ensures Rank(last) == 1 ==> Direction(l, r, i, j) == DIAGONAL || Direction(l, r, i, j) == UP
  {
  }

  /** The rows are a best alignment of the two prefixes. */
  predicate IsBest(rows: seq<Row>, l: Trace, r: Trace, i: nat, j: nat)
    requires i <= |l| && j <= |r|
  {
    Covers(rows, l, r, i, j) && Score(rows, l, r) == Cell(l, r, i, j)
  }

  /** The last row of a best alignment is a best choice, in front of a best alignment of what is left. */
  lemma {:induction false} LastIsBestChoice(l: Trace, r: Trace, i: nat, j: nat, other: seq<Row>)
    returns (before: seq<Row>, last: Row)
    requires i <= |l| && j <= |r| && other != [] && IsBest(other, l, r, i, j)
    ensures other == before + [last] && Ends(last, l, r, i, j)
    ensures Cell(l, r, i, j) == CellBefore(last, l, r, i, j) + RowScore(last, l, r)
    ensures IsBest(before, l, r, if last.left.Some? then i - 1 else i, if last.right.Some? then j - 1 else j)
  {
    before, last := other[..|other| - 1], other[|other| - 1];
    var i', j' := if last.left.Some? then i - 1 else i, if last.right.Some? then j - 1 else j;
    CellBoundsEveryAlignment(before, l, r, i', j');
    ChoiceBound(l, r, i, j, last);
  }

  lemma {:induction false} SameRank(row: Row, last: Row, l: Trace, r: Trace, i: nat, j: nat)
    requires Ends(row, l, r, i, j) && Ends(last, l, r, i, j) && Rank(row) == Rank(last)
    ensures row == last
  {
  }

  /** The row that the walk takes is of least rank among the best choices. */
  lemma {:induction false} WalkTakesFirst(l: Trace, r: Trace, i: nat, j: nat, done: seq<Row>, last: Row)
    returns (row: Row, i': nat, j': nat)
    requires i <= |l| && j <= |r| && Walk(l, r, i, j, done).Ok? && Ends(last, l, r, i, j)
    requires Cell(l, r, i, j) == CellBefore(last, l, r, i, j) + RowScore(last, l, r)
    ensures i' == (if row.left.Some? then i - 1 else i) && j' == (if row.right.Some? then j - 1 else j)
    ensures i' + j' < i + j && Walk(l, r, i, j, done) == Walk(l, r, i', j', [row] + done)
    ensures row == last || Rank(row) < Rank(last)
  {
    BestChoiceDirection(l, r, i, j, last);
    var direction := Direction(l, r, i, j);
    if i > 0 && j > 0 && direction == DIAGONAL {
      row := Row(Some(i - 1), Some(j - 1), l[i - 1].anchor, AlignedStatus(l[i - 1], r[j - 1]));
      i', j' := i - 1, j - 1;
    } else if i > 0 && (direction == UP || j == 0) {
      row := Row(Some(i - 1), None, l[i - 1].anchor, LeftOnly);
      i', j' := i - 1, j;
    } else {
      row := Row(None, Some(j - 1), r[j - 1].anchor, RightOnly);
      i', j' := i, j - 1;
    }
    if Rank(row) == Rank(last) { SameRank(row, last, l, r, i, j); }
  }

  lemma {:induction false} FirstSnoc(rows: seq<Row>, row: Row, others: seq<Row>, last: Row)
    requires if row == last then ComesFirst(rows, others) else Rank(row) < Rank(last)
    ensures ComesFirst(rows + [row], others + [last])
  {
    assert (rows + [row])[..|rows|] == rows && (others + [last])[..|others|] == others;
  }

  /** The walk puts rows in front of what is done. */
  predicate Yields(l: Trace, r: Trace, i: nat, j: nat, done: seq<Row>, rows: seq<Row>)
    requires i <= |l| && j <= |r|
  {
    Walk(l, r, i, j, done) == Ok(rows + done)
  }

  lemma {:induction false} WalkYields(l: Trace, r: Trace, i: nat, j: nat, done: seq<Row>) returns (rows: seq<Row>)
    requires i <= |l| && j <= |r| && Walk(l, r, i, j, done).Ok?
    ensures Yields(l, r, i, j, done, rows)
  {
    rows := WalkAttainsCell(l, r, i, j, done);
  }

  lemma {:induction false} YieldsSnoc(first: seq<Row>, row: Row, done: seq<Row>)
    ensures first + ([row] + done) == (first + [row]) + done
  {
  }

  lemma {:induction false} WalkIsFirst(l: Trace, r: Trace, i: nat, j: nat, done: seq<Row>, other: seq<Row>)
    returns (rows: seq<Row>)
    requires i <= |l| && j <= |r| && Walk(l, r, i, j, done).Ok?
    requires IsBest(other, l, r, i, j)
    ensures Yields(l, r, i, j, done, rows) && ComesFirst(rows, other)
    decreases i + j
  {
    if other == [] {
      rows := [];
      assert rows + done == done;
    } else {
      var before, last := LastIsBestChoice(l, r, i, j, other);
      var row, i', j' := WalkTakesFirst(l, r, i, j, done, last);
      var first;
      if row == last {
        first := WalkIsFirst(l, r, i', j', [row] + done, before);
      } else {
        first := WalkYields(l, r, i', j', [row] + done);
      }
      rows := first + [row];
      YieldsSnoc(first, row, done);
      FirstSnoc(first, row, before, last);
    }
  }

  /** Among all alignments of the greatest worth the program returns the first one, read from the end. */
  lemma {:induction false} ReturnedComesFirst(l: Trace, r: Trace, other: seq<Row>)
    requires Align(l, r).Ok? && IsAlignment(other, l, r) && Worth(other, l, r) == CountersWorth(Align(l, r).value)
    ensures ComesFirst(Align(l, r).value.alignments, other)
  {
    var best := WalkAttainsCell(l, r, |l|, |r|, []);
    assert best + [] == best;
    CoversIff(best, l, r);
    CountersAreWorth(best, l, r);
    WorthIsScore(best, l, r);
    WorthIsScore(other, l, r);
    CoversIff(other, l, r);
    var rows := WalkIsFirst(l, r, |l|, |r|, [], other);
    assert rows + [] == rows;
  }
}
