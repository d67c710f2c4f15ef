/** Ordering a raw trace by its durable sequence, with clocks kept as orientation aids only. */
module TraceNormalization {
  import opened Prelude
  import opened Sorting
  import opened TraceAlignment

  /** timestamp is in seconds, monotonicMs in milliseconds. */
  datatype TraceEvent = TraceEvent(
    eventId: string,
    anchor: SemanticAnchor,
    sequence: nat,
    timestamp: Option<real>,
    monotonicMs: Option<real>,
    evidenceRef: Option<string>,
    digest: Option<string>)

  predicate IsDigest(digest: string) {
    |digest| == 64 && forall c :: c in digest ==> 'a' <= c <= 'f' || '0' <= c <= '9'
  }

  /** What the constructor accepts. */
  predicate Admissible(e: TraceEvent) {
    && e.eventId != "" && (e.monotonicMs.Some? ==> e.monotonicMs.value >= 0.0)
    && (e.evidenceRef.Some? ==> e.evidenceRef.value != "") && (e.digest.Some? ==> IsDigest(e.digest.value))
  }

  datatype NormalizeError = DuplicateEventId | DuplicateSequence

  predicate EventLe(a: TraceEvent, b: TraceEvent) {
    a.sequence < b.sequence || (a.sequence == b.sequence && StringLe(a.eventId, b.eventId))
  }

  function IdOf(e: TraceEvent): string { e.eventId }

  function SequenceOf(e: TraceEvent): nat { e.sequence }

  function MonotonicOf(e: TraceEvent): Option<real> { e.monotonicMs }

  function TimestampOf(e: TraceEvent): Option<real> { e.timestamp }

  /** The first clock reading present, in trace order. */
  function FirstReading(clock: TraceEvent -> Option<real>, s: seq<TraceEvent>): Option<real> {
    if s == [] then None else if clock(s[0]).Some? then clock(s[0]) else FirstReading(clock, s[1..])
  }

  function Relative(e: TraceEvent, monotonicOrigin: Option<real>, wallOrigin: Option<real>): Option<real> {
    if e.monotonicMs.Some? && monotonicOrigin.Some? then Some(e.monotonicMs.value - monotonicOrigin.value)
    else if e.timestamp.Some? && wallOrigin.Some? then Some((e.timestamp.value - wallOrigin.value) * 1000.0)
    else None
  }

  function NormalizedAt(ordered: seq<TraceEvent>, k: nat): NormalizedEvent
    requires k < |ordered|
  {
    var e := ordered[k];
    NormalizedEvent(e.eventId, e.anchor, k,
                    Relative(e, FirstReading(MonotonicOf, ordered), FirstReading(TimestampOf, ordered)),
                    e.evidenceRef, e.digest)
  }

  function Normalize(events: seq<TraceEvent>): Result<Trace, NormalizeError> {
    if !Distinct(MapSeq(IdOf, events)) then Err(DuplicateEventId)
    else
      var ordered := Sort(events, EventLe);
      if !Distinct(MapSeq(SequenceOf, ordered)) then Err(DuplicateSequence)
      else Ok(seq(|ordered|, k requires 0 <= k < |ordered| => NormalizedAt(ordered, k)))
  }

  predicate RepeatsId(events: seq<TraceEvent>) {
    exists i, j :: 0 <= i < j < |events| && events[i].eventId == events[j].eventId
  }

  predicate RepeatsSequence(events: seq<TraceEvent>) {
    exists i, j :: 0 <= i < j < |events| && events[i].sequence == events[j].sequence
  }

  lemma {:induction false} DistinctKeys(events: seq<TraceEvent>)
    ensures Distinct(MapSeq(IdOf, events)) <==> !RepeatsId(events)
    ensures Distinct(MapSeq(SequenceOf, events)) <==> !RepeatsSequence(events)
  {
    var ids, sequences := MapSeq(IdOf, events), MapSeq(SequenceOf, events);
    forall k | 0 <= k < |events| ensures ids[k] == events[k].eventId && sequences[k] == events[k].sequence {
      assert ids[k] == IdOf(events[k]) && sequences[k] == SequenceOf(events[k]);
    }
    if Distinct(ids) {
      forall i, j | 0 <= i < j < |events| ensures events[i].eventId != events[j].eventId {
        assert ids[i] != ids[j];
      }
    }
    if Distinct(sequences) {
      forall i, j | 0 <= i < j < |events| ensures events[i].sequence != events[j].sequence {
        assert sequences[i] != sequences[j];
      }
    }
  }

  method NormalizeTrace(events: seq<TraceEvent>) returns (result: Result<Trace, NormalizeError>)
    ensures result == Normalize(events)
    ensures result == Err(DuplicateEventId) <==> RepeatsId(events)
    ensures result == Err(DuplicateSequence) <==> !RepeatsId(events) && RepeatsSequence(events)
    ensures result.Ok? ==> |result.value| == |events| && forall k :: 0 <= k < |events| ==> result.value[k].ordinal == k
  {
    SortPermutes(events, EventLe);
    PermutationKeepsDistinct(SequenceOf, Sort(events, EventLe), events);
    DistinctKeys(events);
    if events == [] {
      return Ok([]);
    }
    var ids := MapSeq(IdOf, events);
    ElementsSize(ids);
    if |Elements(ids)| != |events| {
      return Err(DuplicateEventId);
    }
    var ordered := Sort(events, EventLe);
    var sequences := MapSeq(SequenceOf, ordered);
    ElementsSize(sequences);
    if |Elements(sequences)| != |ordered| {
      return Err(DuplicateSequence);
    }
    var monotonicOrigin := FirstReading(MonotonicOf, ordered);
    var wallOrigin := FirstReading(TimestampOf, ordered);
    var normalized: Trace := [];
    for ordinal := 0 to |ordered|
      invariant |normalized| == ordinal
      invariant forall k :: 0 <= k < ordinal ==> normalized[k] == NormalizedAt(ordered, k)
    {
      var item := ordered[ordinal];
      var relative := Relative(item, monotonicOrigin, wallOrigin);
      normalized := normalized + [NormalizedEvent(item.eventId, item.anchor, ordinal, relative, item.evidenceRef,
                                                  item.digest)];
    }
    assert normalized == Normalize(events).value;
    return Ok(normalized);
  }

  // ----- Input order does not matter -----

  lemma {:induction false} EventOrder()
    ensures TotalPreorder(EventLe)
  {
    StringLeIsOrder();
  }

  lemma {:induction false} DistinctIdsSeparate(s: seq<TraceEvent>)
    requires Distinct(MapSeq(IdOf, s))
    ensures Separates(s, EventLe)
  {
    forall x, y | x in s && y in s && EventLe(x, y) && EventLe(y, x) ensures x == y {
      StringLeTotal(x.eventId, y.eventId);
      var i :| 0 <= i < |s| && s[i] == x;
      var j :| 0 <= j < |s| && s[j] == y;
      assert MapSeq(IdOf, s)[i] == IdOf(x) && MapSeq(IdOf, s)[j] == IdOf(y);
      assert x.eventId == y.eventId;
    }
  }

  /** The order in which events are supplied is irrelevant, to the result and to the error. */
  lemma {:induction false} NormalizeForgetsInputOrder(s: seq<TraceEvent>, t: seq<TraceEvent>)
    requires multiset(s) == multiset(t)
    ensures Normalize(s) == Normalize(t)
  {
    PermutationKeepsDistinct(IdOf, s, t);
    if Distinct(MapSeq(IdOf, s)) {
      EventOrder();
      DistinctIdsSeparate(s);
      SortForgetsOrder(s, t, EventLe);
    }
  }

  /** The first reading of a clock in the trace, where there is one. */
  predicate IsOrigin(clock: TraceEvent -> Option<real>, s: seq<TraceEvent>, origin: real) {
    exists k :: 0 <= k < |s| && clock(s[k]) == Some(origin) && forall j :: 0 <= j < k ==> clock(s[j]) == None
  }

  /**
   A normalized event has everything of its source but the clocks, in whose place it has the
   milliseconds since the first monotonic reading of the trace, or else since the first timestamp.
   */
  ghost predicate Carries(n: NormalizedEvent, ordered: seq<TraceEvent>, k: nat)
    requires k < |ordered|
  {
    var e := ordered[k];
    && n.eventId == e.eventId && n.anchor == e.anchor && n.ordinal == k
    && n.evidenceRef == e.evidenceRef && n.digest == e.digest
    && (e.monotonicMs.Some? ==> exists origin ::
          IsOrigin(MonotonicOf, ordered, origin) && n.relativeMs == Some(e.monotonicMs.value - origin))
    && (e.monotonicMs.None? && e.timestamp.Some? ==> exists origin ::
          IsOrigin(TimestampOf, ordered, origin) && n.relativeMs == Some((e.timestamp.value - origin) * 1000.0))
    && (e.monotonicMs.None? && e.timestamp.None? ==> n.relativeMs.None?)
  }

  lemma {:induction false} FirstReadingIsOrigin(clock: TraceEvent -> Option<real>, s: seq<TraceEvent>, k: nat)
    requires k < |s| && clock(s[k]).Some?
    ensures FirstReading(clock, s).Some? && IsOrigin(clock, s, FirstReading(clock, s).value)
  {
    if clock(s[0]).None? {
      var rest := s[1..];
      FirstReadingIsOrigin(clock, rest, k - 1);
      var origin := FirstReading(clock, rest).value;
      var i :| 0 <= i < |rest| && clock(rest[i]) == Some(origin) && forall j :: 0 <= j < i ==> clock(rest[j]) == None;
      forall j | 0 <= j < i + 1 ensures clock(s[j]) == None {
        if j > 0 { assert s[j] == rest[j - 1]; }
      }
      assert clock(s[i + 1]) == Some(origin);
    } else {
      assert clock(s[0]) == FirstReading(clock, s);
    }
  }

  lemma {:induction false} NormalizedCarries(ordered: seq<TraceEvent>, k: nat)
    requires k < |ordered|
    ensures Carries(NormalizedAt(ordered, k), ordered, k)
  {
    var e := ordered[k];
    if MonotonicOf(e).Some? { FirstReadingIsOrigin(MonotonicOf, ordered, k); }
    if TimestampOf(e).Some? { FirstReadingIsOrigin(TimestampOf, ordered, k); }
  }

  /** A normalized trace lists its events in strictly increasing durable sequence. */
  lemma {:induction false} NormalizedFollowsSequence(events: seq<TraceEvent>) returns (ordered: seq<TraceEvent>)
    requires Normalize(events).Ok?
    ensures multiset(ordered) == multiset(events) && |ordered| == |events| == |Normalize(events).value|
    ensures forall i, j :: 0 <= i < j < |ordered| ==> ordered[i].sequence < ordered[j].sequence
    ensures forall k :: 0 <= k < |ordered| ==> Carries(Normalize(events).value[k], ordered, k)
  {
    ordered := Sort(events, EventLe);
    EventOrder();
    SortPermutes(events, EventLe);
    SortOrdered(events, EventLe);
    forall i, j | 0 <= i < j < |ordered| ensures ordered[i].sequence < ordered[j].sequence {
      assert EventLe(ordered[i], ordered[j]);
      assert MapSeq(SequenceOf, ordered)[i] != MapSeq(SequenceOf, ordered)[j];
    }
    forall k | 0 <= k < |ordered| ensures Carries(Normalize(events).value[k], ordered, k) {
      NormalizedCarries(ordered, k);
    }
  }

  /** Events listed by strictly increasing sequence stay where they are. */
  lemma {:induction false} ListedInSequence(events: seq<TraceEvent>)
    requires Distinct(MapSeq(IdOf, events)) && forall i, j :: 0 <= i < j < |events| ==>
            events[i].sequence < events[j].sequence
    ensures Normalize(events) == Ok(seq(|events|, k requires 0 <= k < |events| => NormalizedAt(events, k)))
  {
    EventOrder();
    DistinctIdsSeparate(events);
    SortPermutes(events, EventLe);
    SortOrdered(events, EventLe);
    assert Ordered(events, EventLe);
    OrderedUnique(events, Sort(events, EventLe), EventLe);
    var sequences := MapSeq(SequenceOf, events);
    assert forall k :: 0 <= k < |sequences| ==> sequences[k] == events[k].sequence;
  }

  // ----- Clocks do not matter -----

  ghost predicate SameButClocks(a: TraceEvent, b: TraceEvent) {
    b == a.(timestamp := b.timestamp, monotonicMs := b.monotonicMs)
  }

  /** The two traces agree on everything the alignment may look at. */
  ghost predicate SameSemantics(l: Trace, l': Trace) {
    |l| == |l'| && forall k :: 0 <= k < |l| ==> l'[k] == l[k].(relativeMs := l'[k].relativeMs)
  }

  lemma {:induction false} CellIgnoresClocks(l: Trace, r: Trace, l': Trace, r': Trace, i: nat, j: nat)
    requires SameSemantics(l, l') && SameSemantics(r, r') && i <= |l| && j <= |r|
    ensures Cell(l, r, i, j) == Cell(l', r', i, j)
    decreases i + j
  {
    if i > 0 && j > 0 {
      CellIgnoresClocks(l, r, l', r', i - 1, j - 1);
      CellIgnoresClocks(l, r, l', r', i - 1, j);
      CellIgnoresClocks(l, r, l', r', i, j - 1);
      assert DiagonalScore(l[i - 1], r[j - 1]) == DiagonalScore(l'[i - 1], r'[j - 1]);
    }
  }

  lemma {:induction false} DirectionIgnoresClocks(l: Trace, r: Trace, l': Trace, r': Trace, i: nat, j: nat)
    requires SameSemantics(l, l') && SameSemantics(r, r') && i <= |l| && j <= |r|
    ensures Direction(l, r, i, j) == Direction(l', r', i, j)
  {
    CellIgnoresClocks(l, r, l', r', i, j);
    if i > 0 && j > 0 {
      CellIgnoresClocks(l, r, l', r', i - 1, j - 1);
      CellIgnoresClocks(l, r, l', r', i - 1, j);
      assert DiagonalCell(l, r, i, j) == DiagonalCell(l', r', i, j);
    }
  }

  lemma {:induction false} WalkIgnoresClocks(l: Trace, r: Trace, l': Trace, r': Trace, i: nat, j: nat, done: seq<Row>)
    requires SameSemantics(l, l') && SameSemantics(r, r') && i <= |l| && j <= |r|
    ensures Walk(l, r, i, j, done) == Walk(l', r', i, j, done)
    decreases i + j
  {
    DirectionIgnoresClocks(l, r, l', r', i, j);
    if i > 0 && j > 0 && Direction(l, r, i, j) == DIAGONAL {
      if l[i - 1].anchor == r[j - 1].anchor {
        var row := Row(Some(i - 1), Some(j - 1), l[i - 1].anchor, AlignedStatus(l[i - 1], r[j - 1]));
        assert row == Row(Some(i - 1), Some(j - 1), l'[i - 1].anchor, AlignedStatus(l'[i - 1], r'[j - 1]));
        WalkIgnoresClocks(l, r, l', r', i - 1, j - 1, [row] + done);
      }
    } else if i > 0 && (Direction(l, r, i, j) == UP || j == 0) {
      WalkIgnoresClocks(l, r, l', r', i - 1, j, [Row(Some(i - 1), None, l[i - 1].anchor, LeftOnly)] + done);
    } else if j > 0 && (Direction(l, r, i, j) == LEFT || i == 0) {
      WalkIgnoresClocks(l, r, l', r', i, j - 1, [Row(None, Some(j - 1), r[j - 1].anchor, RightOnly)] + done);
    }
  }

  lemma {:induction false} ExactCountIgnoresClocks(rows: seq<Row>, l: Trace, r: Trace, l': Trace, r': Trace)
    requires SameSemantics(l, l') && SameSemantics(r, r')
    ensures Count((row: Row) => ExactMatch(row, l, r), rows) == Count((row: Row) => ExactMatch(row, l', r'), rows)
  {
    if rows != [] { ExactCountIgnoresClocks(rows[1..], l, r, l', r'); }
  }

  /** Whatever the clocks of the two hosts say, normalization succeeds alike and the alignment is the same. */
  lemma {:induction false} ClocksNeverChangeTheAlignment(s: seq<TraceEvent>, t: seq<TraceEvent>,
      f: TraceEvent -> TraceEvent, g: TraceEvent -> TraceEvent)
    requires forall e :: SameButClocks(e, f(e)) && SameButClocks(e, g(e))
    ensures Normalize(MapSeq(f, s)).Ok? <==> Normalize(s).Ok?
    ensures Normalize(MapSeq(g, t)).Ok? <==> Normalize(t).Ok?
    ensures Normalize(s).Ok? && Normalize(t).Ok? ==>
              Align(Normalize(MapSeq(f, s)).value, Normalize(MapSeq(g, t)).value)
                == Align(Normalize(s).value, Normalize(t).value)
  {
    ReclockedNormalize(s, f);
    ReclockedNormalize(t, g);
    if Normalize(s).Ok? && Normalize(t).Ok? {
      var l, r := Normalize(s).value, Normalize(t).value;
      var l', r' := Normalize(MapSeq(f, s)).value, Normalize(MapSeq(g, t)).value;
      WalkIgnoresClocks(l, r, l', r', |l|, |r|, []);
      if Walk(l, r, |l|, |r|, []).Ok? {
        ExactCountIgnoresClocks(Walk(l, r, |l|, |r|, []).value, l, r, l', r');
      }
    }
  }

  lemma {:induction false} ReclockedOrder(s: seq<TraceEvent>, f: TraceEvent -> TraceEvent)
    requires forall e :: SameButClocks(e, f(e))
    ensures MapSeq(IdOf, MapSeq(f, s)) == MapSeq(IdOf, s)
    ensures Sort(MapSeq(f, s), EventLe) == MapSeq(f, Sort(s, EventLe))
    ensures MapSeq(SequenceOf, Sort(MapSeq(f, s), EventLe)) == MapSeq(SequenceOf, Sort(s, EventLe))
  {
    forall x, y ensures EventLe(x, y) <==> EventLe(f(x), f(y)) {
      assert SameButClocks(x, f(x)) && SameButClocks(y, f(y));
    }
    SortCommutes(s, f, EventLe, EventLe);
    forall e ensures IdOf(f(e)) == IdOf(e) && SequenceOf(f(e)) == SequenceOf(e) {
      assert SameButClocks(e, f(e));
    }
    MapAgrees(f, IdOf, s);
    MapAgrees(f, SequenceOf, Sort(s, EventLe));
  }

  lemma {:induction false} MapAgrees<T>(f: TraceEvent -> TraceEvent, key: TraceEvent -> T, s: seq<TraceEvent>)
    requires forall e :: key(f(e)) == key(e)
    ensures MapSeq(key, MapSeq(f, s)) == MapSeq(key, s)
  {
  }

  lemma {:induction false} ReclockedNormalize(s: seq<TraceEvent>, f: TraceEvent -> TraceEvent)
    requires forall e :: SameButClocks(e, f(e))
    ensures Normalize(MapSeq(f, s)).Ok? <==> Normalize(s).Ok?
    ensures Normalize(s).Ok? ==> SameSemantics(Normalize(s).value, Normalize(MapSeq(f, s)).value)
  {
    ReclockedOrder(s, f);
    var ordered := Sort(s, EventLe);
    forall k | 0 <= k < |ordered|
      ensures SameButClocks(ordered[k], MapSeq(f, ordered)[k])
    {
    }
  }

  function ShiftReading(reading: Option<real>, delta: real): Option<real> {
    if reading.Some? then Some(reading.value + delta) else None
  }

  /** The same trace seen from a host whose wall clock and monotonic clock are offset. */
  function Shift(e: TraceEvent, wall: real, monotonic: real): TraceEvent {
    e.(timestamp := ShiftReading(e.timestamp, wall), monotonicMs := ShiftReading(e.monotonicMs, monotonic))
  }

  function Shifter(wall: real, monotonic: real): TraceEvent -> TraceEvent {
    e => Shift(e, wall, monotonic)
  }

  lemma {:induction false} FirstReadingShifts(s: seq<TraceEvent>, wall: real, monotonic: real)
    ensures FirstReading(MonotonicOf, MapSeq(Shifter(wall, monotonic), s))
            == ShiftReading(FirstReading(MonotonicOf, s), monotonic)
    ensures FirstReading(TimestampOf, MapSeq(Shifter(wall, monotonic), s))
            == ShiftReading(FirstReading(TimestampOf, s), wall)
  {
    if s != [] {
      FirstReadingShifts(s[1..], wall, monotonic);
      assert MapSeq(Shifter(wall, monotonic), s)[1..] == MapSeq(Shifter(wall, monotonic), s[1..]);
    }
  }

  lemma {:induction false} RelativeShifts(e: TraceEvent, monotonicOrigin: Option<real>, wallOrigin: Option<real>,
      wall: real, monotonic: real)
    ensures Relative(Shift(e, wall, monotonic), ShiftReading(monotonicOrigin, monotonic),
                     ShiftReading(wallOrigin, wall))
            == Relative(e, monotonicOrigin, wallOrigin)
  {
    if e.timestamp.Some? && wallOrigin.Some? {
      assert e.timestamp.value + wall - (wallOrigin.value + wall) == e.timestamp.value - wallOrigin.value;
    }
  }

  lemma {:induction false} NormalizedAtShifts(ordered: seq<TraceEvent>, k: nat, wall: real, monotonic: real)
    requires k < |ordered|
    ensures NormalizedAt(MapSeq(Shifter(wall, monotonic), ordered), k) == NormalizedAt(ordered, k)
  {
    FirstReadingShifts(ordered, wall, monotonic);
    RelativeShifts(ordered[k], FirstReading(MonotonicOf, ordered), FirstReading(TimestampOf, ordered), wall, monotonic);
  }

  /** A constant offset of either clock leaves the normalized trace identical, relative times included. */
  lemma {:induction false} ClockOffsetIsInvisible(s: seq<TraceEvent>, wall: real, monotonic: real)
    ensures Normalize(MapSeq(Shifter(wall, monotonic), s)) == Normalize(s)
  {
    var f := Shifter(wall, monotonic);
    forall e ensures SameButClocks(e, f(e)) { }
    ReclockedOrder(s, f);
    var ordered := Sort(s, EventLe);
    forall k | 0 <= k < |ordered| ensures NormalizedAt(MapSeq(f, ordered), k) == NormalizedAt(ordered, k) {
      NormalizedAtShifts(ordered, k, wall, monotonic);
    }
    if Normalize(s).Ok? {
      assert Normalize(MapSeq(f, s)).value == Normalize(s).value;
    }
  }
}
