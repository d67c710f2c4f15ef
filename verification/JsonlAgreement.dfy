/** For which contents the streaming and the batch reader agree, whatever the records mean. */
module JsonlAgreement {
  import opened Prelude
  import opened JsonlStream

  // ----- What a reader sees of the lines before it decodes them -----

  datatype End = Ended | TooLong | Repeated

  /** The records up to the first one that is repeated or follows an overlong line, and what comes then. */
  datatype View = View(records: seq<Bytes>, end: End)

  function See(limit: nat, lines: seq<Bytes>, seen: seq<Bytes>): View
    decreases |lines|
  {
    if lines == [] then View(seen, Ended)
    else if |lines[0]| > limit then View(seen, TooLong)
    else
      var record := Strip(lines[0]);
      if record == [] then See(limit, lines[1..], seen)
      else if record in seen then View(seen, Repeated)
      else See(limit, lines[1..], seen + [record])
  }

  predicate IsRecord(limit: nat, record: Bytes) {
    record != [] && |record| <= limit && Strip(record) == record
  }

  predicate Records(limit: nat, records: seq<Bytes>) {
    Distinct(records) && forall x :: x in records ==> IsRecord(limit, x)
  }

  lemma {:induction false} StripIsRecord(line: Bytes)
    ensures |Strip(line)| <= |line| && Strip(Strip(line)) == Strip(line)
  {
    if line != [] && (line[|line| - 1] == CR || line[|line| - 1] == LF) { StripIsRecord(line[..|line| - 1]); }
  }

  lemma {:induction false} RecordsSnoc(limit: nat, seen: seq<Bytes>, line: Bytes)
    requires Records(limit, seen) && |line| <= limit && Strip(line) != [] && Strip(line) !in seen
    ensures Records(limit, seen + [Strip(line)])
  {
    StripIsRecord(line);
  }

  /** A view keeps what was seen before, and lists different records. */
  lemma {:induction false} SeeKeeps(limit: nat, lines: seq<Bytes>, seen: seq<Bytes>)
    requires Records(limit, seen)
    ensures seen <= See(limit, lines, seen).records && Records(limit, See(limit, lines, seen).records)
    decreases |lines|
  {
    if lines != [] && |lines[0]| <= limit {
      var record := Strip(lines[0]);
      if record == [] {
        SeeKeeps(limit, lines[1..], seen);
      } else if record !in seen {
        RecordsSnoc(limit, seen, lines[0]);
        SeeKeeps(limit, lines[1..], seen + [record]);
      }
    }
  }

  // ----- What a reader reports depends on its view alone -----

  function Conclude(reader: Reader, parsed: Result<Parse, Failure>): Result<(seq<Event>, Bundle), Failure> {
    match parsed
    case Err(e) => Err(e)
    case Ok(p) => Finish(reader, p)
  }

  /** How a reader ends after the records of its view. */
  function ConcludeView(reader: Reader, p: Parse, end: End): Result<(seq<Event>, Bundle), Failure> {
    match end
    case Ended => Finish(reader, p)
    case TooLong => Err(LineTooLong)
    case Repeated =>
      if p.result.Some? then Err(RecordAfterResult)
      else if |p.events| >= reader.limits.maxEvents then Err(TooManyEvents)
      else Err(BadTraceSequence)
  }

  function Outcome(reader: Reader, view: View): Result<(seq<Event>, Bundle), Failure> {
    match AcceptLines(reader, EMPTY, view.records)
    case Err(e) => Err(e)
    case Ok(p) => ConcludeView(reader, p, view.end)
  }

  /** The line is an event of the attempt that is already passed. */
  predicate PastEvent(reader: Reader, previous: int, line: Bytes) {
    match reader.decode(line)
    case EventRecord(Some(event)) =>
      event.attemptId == reader.attemptId && event.episodeId == reader.episodeId && event.sequence <= previous
    case _ => false
  }

  /** While there is no result, every accepted record was an event that is now passed. */
  lemma {:induction false} AcceptedArePast(reader: Reader, records: seq<Bytes>)
    requires AcceptLines(reader, EMPTY, records).Ok? && AcceptLines(reader, EMPTY, records).value.result.None?
    requires Records(reader.limits.maxLineBytes, records)
    ensures forall x :: x in records ==> PastEvent(reader, AcceptLines(reader, EMPTY, records).value.previous, x)
  {
    if records != [] {
      var before, last := records[..|records| - 1], records[|records| - 1];
      assert records == before + [last];
      AcceptAppend(reader, EMPTY, before, [last]);
      AcceptOne(reader, AcceptLines(reader, EMPTY, before).value, last);
      AcceptedArePast(reader, before);
      assert IsRecord(reader.limits.maxLineBytes, last);
    }
  }

  lemma {:induction false} OutcomeFails(reader: Reader, view: View, k: nat)
    requires k <= |view.records| && AcceptLines(reader, EMPTY, view.records[..k]).Err?
    ensures Outcome(reader, view) == Err(AcceptLines(reader, EMPTY, view.records[..k]).error)
  {
    assert view.records == view.records[..k] + view.records[k..];
    AcceptAppend(reader, EMPTY, view.records[..k], view.records[k..]);
  }

  lemma {:induction false} MeaningOfView(reader: Reader, lines: seq<Bytes>, seen: seq<Bytes>, p: Parse)
    requires Records(reader.limits.maxLineBytes, seen) && AcceptLines(reader, EMPTY, seen) == Ok(p)
    ensures Conclude(reader, AcceptLines(reader, p, lines))
            == Outcome(reader, See(reader.limits.maxLineBytes, lines, seen))
    decreases |lines|
  {
    var limit := reader.limits.maxLineBytes;
    if lines != [] && |lines[0]| <= limit {
      var record := Strip(lines[0]);
      StripIsRecord(lines[0]);
      if record == [] {
        MeaningOfView(reader, lines[1..], seen, p);
      } else if record in seen {
        if p.result.None? {
          AcceptedArePast(reader, seen);
          assert PastEvent(reader, p.previous, record);
        }
      } else {
        MeaningOfNew(reader, lines, seen, p);
      }
    }
  }

  lemma {:induction false} MeaningOfNew(reader: Reader, lines: seq<Bytes>, seen: seq<Bytes>, p: Parse)
    requires Records(reader.limits.maxLineBytes, seen) && AcceptLines(reader, EMPTY, seen) == Ok(p)
    requires lines != [] && |lines[0]| <= reader.limits.maxLineBytes
    requires Strip(lines[0]) != [] && Strip(lines[0]) !in seen
    ensures Conclude(reader, AcceptLines(reader, p, lines))
            == Outcome(reader, See(reader.limits.maxLineBytes, lines, seen))
    decreases |lines|, 0
  {
    var limit := reader.limits.maxLineBytes;
    var record := Strip(lines[0]);
    var more := seen + [record];
    StripIsRecord(lines[0]);
    RecordsSnoc(limit, seen, lines[0]);
    AcceptAppend(reader, EMPTY, seen, [record]);
    AcceptOne(reader, p, record);
    assert AcceptLine(reader, p, lines[0]) == AcceptLine(reader, p, record) == AcceptLines(reader, EMPTY, more);
    match AcceptLine(reader, p, record) {
      case Err(_) =>
        var view := See(limit, lines[1..], more);
        SeeKeeps(limit, lines[1..], more);
        assert view.records[..|more|] == more;
        OutcomeFails(reader, view, |more|);
      case Ok(q) =>
        MeaningOfView(reader, lines[1..], more, q);
    }
  }

  // ----- Different views can be told apart -----

  function IndexIn(records: seq<Bytes>, x: Bytes): (k: nat)
    ensures x in records ==> k < |records| && records[k] == x
  {
    if records == [] || records[0] == x then 0 else 1 + IndexIn(records[1..], x)
  }

  /** A reader that knows the common records as events in order, and one more line as malformed. */
  function Probe(limit: nat, maxBytes: nat, common: seq<Bytes>, bad: Bytes): Reader {
    Reader((line: Bytes) => if line == bad then Malformed
                            else if line in common then EventRecord(Some(Event("attempt", "episode",
                              IndexIn(common, line), "event")))
                            else ResultRecord(None),
           "attempt", "episode", Limits(maxBytes, limit, |common| + 1, 0, 0))
  }

  lemma {:induction false} ProbeAccepts(limit: nat, maxBytes: nat, common: seq<Bytes>, bad: Bytes, k: nat)
    requires Records(limit, common) && bad !in common && k <= |common|
    ensures var parsed := AcceptLines(Probe(limit, maxBytes, common, bad), EMPTY, common[..k]);
            parsed.Ok? && parsed.value.result.None? && parsed.value.previous == k - 1 && |parsed.value.events| == k
  {
    if k > 0 {
      var reader, x := Probe(limit, maxBytes, common, bad), common[k - 1];
      ProbeAccepts(limit, maxBytes, common, bad, k - 1);
      assert common[..k] == common[..k - 1] + [x];
      AcceptAppend(reader, EMPTY, common[..k - 1], [x]);
      AcceptOne(reader, AcceptLines(reader, EMPTY, common[..k - 1]).value, x);
      assert IsRecord(limit, x) && IndexIn(common, x) == k - 1;
    }
  }

  function EndFailure(end: End): Failure {
    match end
    case Ended => NoResult
    case TooLong => LineTooLong
    case Repeated => BadTraceSequence
  }

  /** What the probe says names the first record behind the common ones, or the end. */
  lemma {:induction false} ProbeOutcome(limit: nat, maxBytes: nat, common: seq<Bytes>, bad: Bytes, view: View)
    requires Records(limit, view.records) && common <= view.records && bad !in common
    ensures Outcome(Probe(limit, maxBytes, common, bad), view)
            == Err(if |view.records| == |common| then EndFailure(view.end)
                   else if view.records[|common|] == bad then MalformedRecord else InvalidModel)
  {
    var reader, c := Probe(limit, maxBytes, common, bad), |common|;
    assert Records(limit, common) by {
      assert forall x :: x in common ==> x in view.records;
    }
    ProbeAccepts(limit, maxBytes, common, bad, c);
    assert common[..c] == common;
    if |view.records| == c {
      assert view.records == common;
    } else {
      assert view.records[..c + 1] == common + [view.records[c]];
      assert IsRecord(limit, view.records[c]) && view.records[c] !in common;
      ProbeNames(limit, maxBytes, common, bad, view.records[c]);
      OutcomeFails(reader, view, c + 1);
    }
  }

  /** The first record behind the common ones is malformed or invalid to the probe. */
  lemma {:induction false} ProbeNames(limit: nat, maxBytes: nat, common: seq<Bytes>, bad: Bytes, x: Bytes)
    requires Records(limit, common) && bad !in common && x !in common && IsRecord(limit, x)
    ensures AcceptLines(Probe(limit, maxBytes, common, bad), EMPTY, common + [x])
            == Err(if x == bad then MalformedRecord else InvalidModel)
  {
    var reader := Probe(limit, maxBytes, common, bad);
    ProbeAccepts(limit, maxBytes, common, bad, |common|);
    assert common[..|common|] == common;
    AcceptAppend(reader, EMPTY, common, [x]);
    AcceptOne(reader, AcceptLines(reader, EMPTY, common).value, x);
  }

  function CommonPrefix(a: seq<Bytes>, b: seq<Bytes>): (c: seq<Bytes>)
    ensures c <= a && c <= b
    ensures |c| < |a| && |c| < |b| ==> a[|c|] != b[|c|]
  {
    if a == [] || b == [] || a[0] != b[0] then [] else [a[0]] + CommonPrefix(a[1..], b[1..])
  }

  lemma {:induction false} DifferentViewsAreTold(limit: nat, maxBytes: nat, a: View, b: View) returns (reader: Reader)
    requires a != b && Records(limit, a.records) && Records(limit, b.records)
    ensures reader.limits.maxLineBytes == limit && reader.limits.maxResponseBytes == maxBytes
    ensures Outcome(reader, a) != Outcome(reader, b)
  {
    var common := CommonPrefix(a.records, b.records);
    var c := |common|;
    var bad := if c < |a.records| then a.records[c] else if c < |b.records| then b.records[c] else [];
    forall k | 0 <= k < c ensures common[k] != bad {
      assert common[k] == a.records[k] == b.records[k] && IsRecord(limit, common[k]);
    }
    reader := Probe(limit, maxBytes, common, bad);
    ProbeOutcome(limit, maxBytes, common, bad, a);
    ProbeOutcome(limit, maxBytes, common, bad, b);
  }

  // ----- The two readers -----

  ghost predicate AgreeForEveryReader(limit: nat, content: Bytes) {
    forall reader: Reader :: reader.limits.maxLineBytes == limit ==>
      StreamMeaning(reader, content) == BatchMeaning(reader, content)
  }

  lemma {:induction false} MeaningsByView(reader: Reader, content: Bytes)
    requires |content| <= reader.limits.maxResponseBytes
    ensures StreamMeaning(reader, content) == Outcome(reader, See(reader.limits.maxLineBytes, SplitLF(content), []))
    ensures BatchMeaning(reader, content)
            == Outcome(reader, See(reader.limits.maxLineBytes, SplitUniversal(content), []))
  {
    MeaningOfView(reader, SplitLF(content), [], EMPTY);
    MeaningOfView(reader, SplitUniversal(content), [], EMPTY);
  }

  /**
   The readers agree whatever the records mean exactly when both framings show the same different
   records, ending alike.
   */
  lemma {:induction false} ReadersAgreeExactly(limit: nat, content: Bytes)
    ensures AgreeForEveryReader(limit, content)
            <==> See(limit, SplitLF(content), []) == See(limit, SplitUniversal(content), [])
  {
    var a, b := See(limit, SplitLF(content), []), See(limit, SplitUniversal(content), []);
    SeeKeeps(limit, SplitLF(content), []);
    SeeKeeps(limit, SplitUniversal(content), []);
    if a == b {
      forall reader: Reader | reader.limits.maxLineBytes == limit
        ensures StreamMeaning(reader, content) == BatchMeaning(reader, content) {
        if |content| <= reader.limits.maxResponseBytes { MeaningsByView(reader, content); }
      }
    } else {
      var reader := DifferentViewsAreTold(limit, |content|, a, b);
      MeaningsByView(reader, content);
    }
  }
}
