/**
 Three readers of the same event and result stream: the incremental parser, the chunk
 reassembly that feeds it, and the batch parser. JSON decoding and model validation are one
 uninterpreted function from a stripped line to a record.
 */
module JsonlStream {
  import opened Prelude

  newtype Byte = x: int | 0 <= x < 256

  type Bytes = seq<Byte>

  const LF: Byte := 10
  const CR: Byte := 13

  datatype Event = Event(attemptId: string, episodeId: string, sequence: nat, body: string)

  datatype Artifact = Artifact(artifactId: string, inlineSize: Option<nat>)

  datatype Bundle = Bundle(artifacts: seq<Artifact>, body: string)

  /** What a stripped line means; None is a record whose model or attempt validation raises. */
  datatype Record = Malformed | EventRecord(event: Option<Event>) | ResultRecord(result: Option<Bundle>)

  datatype Limits = Limits(maxResponseBytes: nat, maxLineBytes: nat, maxEvents: nat, maxArtifactBytes: nat,
                           maxTotalArtifactBytes: nat)

  datatype Reader = Reader(decode: Bytes -> Record, attemptId: string, episodeId: string, limits: Limits)

  datatype Failure =
    | ResponseTooLarge | LineTooLong | RecordAfterResult | MalformedRecord | InvalidModel
    | TooManyEvents | BadTraceSequence | NoResult | ArtifactTooLarge

  // ----- One line -----

  /** `rstrip(b"\r\n")`. */
  function Strip(line: Bytes): Bytes {
    if line != [] && (line[|line| - 1] == CR || line[|line| - 1] == LF) then Strip(line[..|line| - 1]) else line
  }

  /** What both parsers remember between lines. */
  datatype Parse = Parse(events: seq<Event>, previous: int, result: Option<Bundle>)

  const EMPTY := Parse([], -1, None)

  function AcceptLine(reader: Reader, p: Parse, raw: Bytes): Result<Parse, Failure> {
    if |raw| > reader.limits.maxLineBytes then Err(LineTooLong)
    else
      var line := Strip(raw);
      if line == [] then Ok(p)
      else if p.result.Some? then Err(RecordAfterResult)
      else
        match reader.decode(line)
        case Malformed => Err(MalformedRecord)
        case EventRecord(event) =>
          if |p.events| >= reader.limits.maxEvents then Err(TooManyEvents)
          else if event.None? then Err(InvalidModel)
          else if event.value.attemptId != reader.attemptId || event.value.episodeId != reader.episodeId
                  || event.value.sequence <= p.previous then Err(BadTraceSequence)
          else Ok(Parse(p.events + [event.value], event.value.sequence, None))
        case ResultRecord(result) => if result.None? then Err(InvalidModel) else Ok(p.(result := result))
  }

  function AcceptLines(reader: Reader, p: Parse, lines: seq<Bytes>): Result<Parse, Failure>
    decreases |lines|
  {
    if lines == [] then Ok(p)
    else
      match AcceptLine(reader, p, lines[0])
      case Err(e) => Err(e)
      case Ok(next) => AcceptLines(reader, next, lines[1..])
  }

  // ----- Artifact limits -----

  function InlineTotal(artifacts: seq<Artifact>): nat {
    if artifacts == [] then 0
    else
      var size := artifacts[|artifacts| - 1].inlineSize;
      InlineTotal(artifacts[..|artifacts| - 1]) + (if size.Some? then size.value else 0)
  }

  predicate ArtifactsFit(artifacts: seq<Artifact>, limits: Limits) {
    && (forall k :: 0 <= k < |artifacts| && artifacts[k].inlineSize.Some? ==>
      artifacts[k].inlineSize.value <= limits.maxArtifactBytes)
    && InlineTotal(artifacts) <= limits.maxTotalArtifactBytes
  }

  lemma {:induction false} InlineTotalGrows(artifacts: seq<Artifact>, k: nat)
    requires k <= |artifacts|
    ensures InlineTotal(artifacts[..k]) <= InlineTotal(artifacts)
  {
    var n := |artifacts|;
    if k == n {
      assert artifacts[..k] == artifacts;
    } else {
      assert artifacts[..n - 1][..k] == artifacts[..k];
      InlineTotalGrows(artifacts[..n - 1], k);
    }
  }

  /** `validate_result_transport_limits`: stopping at the first violation decides exactly the whole-list limits. */
  method ValidateResultTransportLimits(result: Bundle, limits: Limits) returns (ok: bool)
    ensures ok <==> ArtifactsFit(result.artifacts, limits)
  {
    var total := 0;
    var artifacts := result.artifacts;
    for k := 0 to |artifacts|
      invariant total == InlineTotal(artifacts[..k])
      invariant k > 0 ==> total <= limits.maxTotalArtifactBytes || InlineTotal(artifacts[..k]) == 0
      invariant forall i :: 0 <= i < k && artifacts[i].inlineSize.Some? ==>
              artifacts[i].inlineSize.value <= limits.maxArtifactBytes
    {
      assert artifacts[..k + 1][..k] == artifacts[..k];
      var size := artifacts[k].inlineSize;
      if size.None? {
        continue;
      }
      if size.value > limits.maxArtifactBytes {
        return false;
      }
      total := total + size.value;
      if total > limits.maxTotalArtifactBytes {
        InlineTotalGrows(artifacts, k + 1);
        return false;
      }
    }
    assert artifacts[..|artifacts|] == artifacts;
    return true;
  }

  function Finish(reader: Reader, p: Parse): Result<(seq<Event>, Bundle), Failure> {
    if p.result.None? then Err(NoResult)
    else if !ArtifactsFit(p.result.value.artifacts, reader.limits) then Err(ArtifactTooLarge)
    else Ok((p.events, p.result.value))
  }

  // ----- Framing -----

  function FirstLF(s: Bytes): (k: nat)
    ensures k <= |s| && (forall i :: 0 <= i < k ==> s[i] != LF) && (k < |s| ==> s[k] == LF)
  {
    if s == [] || s[0] == LF then 0 else 1 + FirstLF(s[1..])
  }

  function FirstBreak(s: Bytes): (k: nat)
    ensures k <= |s| && (forall i :: 0 <= i < k ==> s[i] != LF && s[i] != CR) && (k < |s| ==> s[k] == LF || s[k] == CR)
  {
    if s == [] || s[0] == LF || s[0] == CR then 0 else 1 + FirstBreak(s[1..])
  }

  /** Lines that end at a line feed, or at the end of the stream. */
  function SplitLF(s: Bytes): seq<Bytes> {
    var k := FirstLF(s);
    if s == [] then [] else if k == |s| then [s] else [s[..k + 1]] + SplitLF(s[k + 1..])
  }

  /** Where the first line of `splitlines(keepends=True)` ends. */
  function LineEnd(s: Bytes): (b: nat)
    requires s != []
    ensures 0 < b <= |s|
  {
    var k := FirstBreak(s);
    if k == |s| then |s|
    else if s[k] == CR && k + 1 < |s| && s[k + 1] == LF then k + 2
    else k + 1
  }

  /** `splitlines(keepends=True)` on bytes: a lone CR ends a line too. */
  function SplitUniversal(s: Bytes): seq<Bytes> {
    if s == [] then [] else [s[..LineEnd(s)]] + SplitUniversal(s[LineEnd(s)..])
  }

  /** Every CR is directly followed by LF or is the last byte. */
  predicate NoBareReturn(s: Bytes) {
    forall i :: 0 <= i < |s| && s[i] == CR ==> i + 1 == |s| || s[i + 1] == LF
  }

  /** The two framings agree exactly on the byte strings without a bare carriage return. */
  lemma {:induction false} FramingsAgreeExactly(s: Bytes)
    ensures SplitUniversal(s) == SplitLF(s) <==> NoBareReturn(s)
    decreases |s|
  {
    if s != [] {
      var first, b := LineFeedEnd(s), LineEnd(s);
      SplitLFHead(s);
      if b == first {
        FramingsAgreeExactly(s[b..]);
        SameHead(s[..b], SplitUniversal(s[b..]), SplitLF(s[b..]));
        FirstLineKeepsReturns(s, b);
      } else {
        assert |SplitUniversal(s)[0]| == b && |SplitLF(s)[0]| == first;
        EarlyEndIsBareReturn(s);
      }
    }
  }

  /** Where the first line ends when only line feeds end lines. */
  function LineFeedEnd(s: Bytes): (b: nat)
    requires s != []
    ensures 0 < b <= |s|
  {
    if FirstLF(s) == |s| then |s| else FirstLF(s) + 1
  }

  lemma {:induction false} SplitLFHead(s: Bytes)
    requires s != []
    ensures SplitLF(s) == [s[..LineFeedEnd(s)]] + SplitLF(s[LineFeedEnd(s)..])
  {
    assert s[..|s|] == s && SplitLF(s[|s|..]) == [];
  }

  lemma {:induction false} EarlyEndIsBareReturn(s: Bytes)
    requires s != [] && LineEnd(s) != LineFeedEnd(s)
    ensures !NoBareReturn(s)
  {
    var j := FirstBreak(s);
    assert j <= FirstLF(s);
    assert j < |s| && s[j] == CR && !(j + 1 == |s| || s[j + 1] == LF);
  }

  lemma {:induction false} SameHead(head: Bytes, a: seq<Bytes>, b: seq<Bytes>)
    ensures [head] + a == [head] + b <==> a == b
  {
    if [head] + a == [head] + b {
      assert a == ([head] + a)[1..] == ([head] + b)[1..] == b;
    }
  }

  /**
   With the first CR or LF at j and the first LF at k, both framings ending the first line at b
   leave a CR of that line only at the end of s or before its LF.
   */
  lemma {:induction false} FirstLineReturns(s: Bytes, j: nat, k: nat, b: nat, i: nat)
    requires j <= k <= |s| && (forall x :: 0 <= x < k ==> s[x] != LF) && (forall x :: 0 <= x < j ==> s[x] != CR)
    requires k < |s| ==> s[k] == LF
    requires b == if k == |s| then |s| else k + 1
    requires j == |s| ==> b == |s|
    requires j < |s| ==>
            (s[j] == CR || s[j] == LF) && b == if s[j] == CR && j + 1 < |s| && s[j + 1] == LF then j + 2 else j + 1
    requires i < b && s[i] == CR
    ensures i + 1 == |s| || (i + 1 < b && s[i + 1] == LF)
  {
    assert j <= i;
  }

  lemma {:induction false} FirstLineKeepsReturns(s: Bytes, b: nat)
    requires s != [] && b == LineEnd(s)
    requires b == LineFeedEnd(s)
    ensures NoBareReturn(s) <==> NoBareReturn(s[b..])
  {
    var rest := s[b..];
    assert forall i :: 0 <= i < |rest| ==> rest[i] == s[b + i];
    if NoBareReturn(rest) {
      forall i | 0 <= i < |s| && s[i] == CR ensures i + 1 == |s| || s[i + 1] == LF {
        if i < b {
          FirstLineReturns(s, FirstBreak(s), FirstLF(s), b, i);
        } else {
          assert rest[i - b] == CR;
        }
      }
    }
  }

  /** A prefix that stops at a line boundary. */
  predicate EndsLine(s: Bytes) { s == [] || s[|s| - 1] == LF }

  lemma {:induction false} SplitAtBoundary(done: Bytes, rest: Bytes)
    requires EndsLine(done)
    ensures SplitLF(done + rest) == SplitLF(done) + SplitLF(rest)
    decreases |done|
  {
    if done == [] {
      assert done + rest == rest;
    } else {
      var k := FirstLF(done);
      assert k < |done|;
      FirstLFUnique(done + rest, k);
      assert (done + rest)[..k + 1] == done[..k + 1];
      assert (done + rest)[k + 1..] == done[k + 1..] + rest;
      SplitAtBoundary(done[k + 1..], rest);
    }
  }

  lemma {:induction false} FirstLFUnique(s: Bytes, k: nat)
    requires k < |s| && s[k] == LF && forall i :: 0 <= i < k ==> s[i] != LF
    ensures FirstLF(s) == k
  {
  }

  lemma {:induction false} AcceptAppend(reader: Reader, p: Parse, a: seq<Bytes>, b: seq<Bytes>)
    ensures AcceptLines(reader, p, a + b) ==
            match AcceptLines(reader, p, a) { case Err(e) => Err(e) case Ok(q) => AcceptLines(reader, q, b) }
    decreases |a|
  {
    if a == [] {
      assert a + b == b;
    } else {
      assert (a + b)[0] == a[0] && (a + b)[1..] == a[1..] + b;
      match AcceptLine(reader, p, a[0]) {
        case Err(_) =>
        case Ok(q) => AcceptAppend(reader, q, a[1..], b);
      }
    }
  }

  // ----- The incremental parser -----

  /** What a stream of bytes means when it is framed by line feeds. */
  function StreamMeaning(reader: Reader, content: Bytes): Result<(seq<Event>, Bundle), Failure> {
    if |content| > reader.limits.maxResponseBytes then Err(ResponseTooLarge)
    else
      match AcceptLines(reader, EMPTY, SplitLF(content))
      case Err(e) => Err(e)
      case Ok(p) => Finish(reader, p)
  }

  /** `JsonlResultParser`, with the open channel it emits into as the field `emitted`. */
  class JsonlResultParser {
    const reader: Reader
    var totalBytes: nat
    var eventCount: nat
    var previousSequence: int
    var result: Option<Bundle>
    var emitted: seq<Event>

    constructor (reader: Reader)
      ensures this.reader == reader && totalBytes == 0 && Valid() && State() == EMPTY
    {
      this.reader := reader;
      totalBytes, eventCount, previousSequence, result, emitted := 0, 0, -1, None, [];
    }

    ghost predicate Valid()
      reads this
    {
      eventCount == |emitted|
    }

    function State(): Parse
      reads this
    {
      Parse(emitted, previousSequence, result)
    }

    /** `consume_line`: the whole new state on success; on failure the first error and no further event. */
    method ConsumeLine(raw: Bytes) returns (failure: Option<Failure>)
      requires Valid()
      modifies this
      ensures totalBytes == old(totalBytes) + |raw|
      ensures totalBytes > reader.limits.maxResponseBytes ==> failure == Some(ResponseTooLarge)
      ensures totalBytes <= reader.limits.maxResponseBytes ==>
                match AcceptLine(reader, old(State()), raw)
                case Ok(p) => failure == None && Valid() && State() == p
                case Err(e) => failure == Some(e) && emitted == old(emitted)
    {
      totalBytes := totalBytes + |raw|;
      if totalBytes > reader.limits.maxResponseBytes {
        return Some(ResponseTooLarge);
      }
      if |raw| > reader.limits.maxLineBytes {
        return Some(LineTooLong);
      }
      var line := Strip(raw);
      if line == [] {
        return None;
      }
      if result.Some? {
        return Some(RecordAfterResult);
      }
      match reader.decode(line) {
        case Malformed =>
          return Some(MalformedRecord);
        case EventRecord(event) =>
          eventCount := eventCount + 1;
          if eventCount > reader.limits.maxEvents {
            return Some(TooManyEvents);
          }
          if event.None? {
            return Some(InvalidModel);
          }
          if event.value.attemptId != reader.attemptId || event.value.episodeId != reader.episodeId
             || event.value.sequence <= previousSequence {
            return Some(BadTraceSequence);
          }
          previousSequence := event.value.sequence;
          emitted := emitted + [event.value];
          return None;
        case ResultRecord(bundle) =>
          if bundle.None? {
            return Some(InvalidModel);
          }
          result := bundle;
          return None;
      }
    }

    /** `finish`. */
    method FinishParse() returns (finished: Result<Bundle, Failure>)
      ensures match Finish(reader, State())
              case Ok(pair) => finished == Ok(pair.1)
              case Err(e) => finished == Err(e)
    {
      if result.None? {
        return Err(NoResult);
      }
      var ok := ValidateResultTransportLimits(result.value, reader.limits);
      if !ok {
        return Err(ArtifactTooLarge);
      }
      return Ok(result.value);
    }
  }

  function Concat(chunks: seq<Bytes>): Bytes {
    if chunks == [] then [] else Concat(chunks[..|chunks| - 1]) + chunks[|chunks| - 1]
  }

  lemma {:induction false} ConcatPrefix(chunks: seq<Bytes>, k: nat) returns (rest: Bytes)
    requires k <= |chunks|
    ensures Concat(chunks) == Concat(chunks[..k]) + rest
  {
    var n := |chunks|;
    if k == n {
      assert chunks[..k] == chunks;
      rest := [];
    } else {
      var inner := ConcatPrefix(chunks[..n - 1], k);
      assert chunks[..n - 1][..k] == chunks[..k];
      rest := inner + chunks[n - 1];
    }
  }

  /** Everything before the buffer has been parsed, line by line. */
  ghost predicate Fed(parser: JsonlResultParser, consumed: Bytes)
    reads parser
  {
    && parser.Valid() && parser.totalBytes == |consumed| && EndsLine(consumed)
    && AcceptLines(parser.reader, EMPTY, SplitLF(consumed)) == Ok(parser.State())
  }

  /** No continuation of these bytes is accepted. */
  ghost predicate Fatal(reader: Reader, content: Bytes) {
    forall tail: Bytes :: AcceptLines(reader, EMPTY, SplitLF(content + tail)).Err?
  }

  lemma {:induction false} BadLineFails(reader: Reader, consumed: Bytes, line: Bytes, rest: Bytes, p: Parse)
    requires EndsLine(consumed) && AcceptLines(reader, EMPTY, SplitLF(consumed)) == Ok(p)
    requires line != [] && (forall i :: 0 <= i < |line| - 1 ==> line[i] != LF) && (line[|line| - 1] == LF || rest == [])
    requires AcceptLine(reader, p, line).Err?
    ensures AcceptLines(reader, EMPTY, SplitLF(consumed + line + rest)).Err?
  {
    assert consumed + line + rest == consumed + (line + rest);
    SplitAtBoundary(consumed, line + rest);
    AcceptAppend(reader, EMPTY, SplitLF(consumed), SplitLF(line + rest));
    HeadLine(line, rest);
  }

  /** A failing complete line makes every continuation of the stream fail. */
  lemma {:induction false} BadLineIsFatal(reader: Reader, consumed: Bytes, line: Bytes, rest: Bytes, p: Parse)
    requires EndsLine(consumed) && AcceptLines(reader, EMPTY, SplitLF(consumed)) == Ok(p)
    requires line != [] && (forall i :: 0 <= i < |line| - 1 ==> line[i] != LF) && line[|line| - 1] == LF
    requires AcceptLine(reader, p, line).Err?
    ensures Fatal(reader, consumed + (line + rest))
  {
    forall tail: Bytes ensures AcceptLines(reader, EMPTY, SplitLF(consumed + (line + rest) + tail)).Err? {
      BadLineFails(reader, consumed, line, rest + tail, p);
      assert consumed + line + (rest + tail) == consumed + (line + rest) + tail;
    }
  }

  lemma {:induction false} HeadLine(line: Bytes, rest: Bytes)
    requires line != [] && (forall i :: 0 <= i < |line| - 1 ==> line[i] != LF) && (line[|line| - 1] == LF || rest == [])
    ensures SplitLF(line + rest) == [line] + SplitLF(rest)
  {
    if line[|line| - 1] == LF {
      FirstLFUnique(line + rest, |line| - 1);
      assert (line + rest)[..|line|] == line && (line + rest)[|line|..] == rest;
    } else {
      assert line + rest == line;
      assert [line] + SplitLF(rest) == [line];
    }
  }

  lemma {:induction false} LongPartialFails(reader: Reader, consumed: Bytes, partial: Bytes, rest: Bytes, p: Parse)
    requires EndsLine(consumed) && AcceptLines(reader, EMPTY, SplitLF(consumed)) == Ok(p)
    requires |partial| > reader.limits.maxLineBytes && forall i :: 0 <= i < |partial| ==> partial[i] != LF
    ensures AcceptLines(reader, EMPTY, SplitLF(consumed + partial + rest)).Err?
  {
    var tail := partial + rest;
    var k := FirstLF(tail);
    var line := if k == |tail| then tail else tail[..k + 1];
    var after := if k == |tail| then [] else tail[k + 1..];
    assert tail == line + after;
    assert forall i :: 0 <= i < |partial| ==> tail[i] == partial[i];
    assert k >= |partial|;
    assert consumed + partial + rest == consumed + tail;
    assert consumed + (line + after) == consumed + line + after;
    BadLineFails(reader, consumed, line, after, p);
  }

  /** A partial line over the limit makes every continuation fail, whatever completes it. */
  lemma {:induction false} LongPartialIsFatal(reader: Reader, consumed: Bytes, partial: Bytes, p: Parse)
    requires EndsLine(consumed) && AcceptLines(reader, EMPTY, SplitLF(consumed)) == Ok(p)
    requires |partial| > reader.limits.maxLineBytes && forall i :: 0 <= i < |partial| ==> partial[i] != LF
    ensures Fatal(reader, consumed + partial)
  {
    forall tail: Bytes ensures AcceptLines(reader, EMPTY, SplitLF(consumed + partial + tail)).Err? {
      LongPartialFails(reader, consumed, partial, tail, p);
    }
  }

  lemma {:induction false} GoodLineAdvances(reader: Reader, consumed: Bytes, line: Bytes, p: Parse, q: Parse)
    requires EndsLine(consumed) && AcceptLines(reader, EMPTY, SplitLF(consumed)) == Ok(p)
    requires line != [] && (forall i :: 0 <= i < |line| - 1 ==> line[i] != LF)
    requires AcceptLine(reader, p, line) == Ok(q)
    ensures AcceptLines(reader, EMPTY, SplitLF(consumed + line)) == Ok(q)
  {
    assert SplitLF(consumed + line) == SplitLF(consumed) + [line] by {
      SplitAtBoundary(consumed, line);
      HeadLine(line, []);
      assert line + [] == line;
      assert [line] + SplitLF([]) == [line];
    }
    AcceptAppend(reader, EMPTY, SplitLF(consumed), [line]);
    AcceptOne(reader, p, line);
  }

  lemma {:induction false} AcceptOne(reader: Reader, p: Parse, line: Bytes)
    ensures AcceptLines(reader, p, [line]) == AcceptLine(reader, p, line)
  {
    assert [line][1..] == [];
  }

  /** Parse one complete line, with rest still buffered behind it. */
  method FeedLine(parser: JsonlResultParser, line: Bytes, ghost fed: Bytes, ghost rest: Bytes)
    returns (failure: Option<Failure>)
    requires Fed(parser, fed) && |fed| + |line| <= parser.reader.limits.maxResponseBytes
    requires line != [] && (forall i :: 0 <= i < |line| - 1 ==> line[i] != LF) && line[|line| - 1] == LF
    modifies parser
    ensures failure.Some? ==> Fatal(parser.reader, fed + (line + rest))
    ensures failure == None ==> Fed(parser, fed + line)
  {
    ghost var p := parser.State();
    failure := parser.ConsumeLine(line);
    if failure.Some? {
      BadLineIsFatal(parser.reader, fed, line, rest, p);
    } else {
      GoodLineAdvances(parser.reader, fed, line, p, parser.State());
      assert EndsLine(fed + line);
    }
  }

  lemma {:induction false} TakeLine(rest: Bytes, newline: nat)
    requires newline < |rest| && rest[newline] == LF && forall i :: 0 <= i < newline ==> rest[i] != LF
    ensures var line := rest[..newline + 1];
            rest == line + rest[newline + 1..] && |line| == newline + 1 && line[newline] == LF && forall i ::
              0 <= i < newline ==> line[i] != LF
  {
  }

  /** The inner loop of `_consume_ndjson`: parse every complete line of the buffer. */
  method DrainBuffer(parser: JsonlResultParser, buffer: Bytes, ghost consumed: Bytes)
    returns (failure: Option<Failure>, rest: Bytes, ghost fed: Bytes)
    requires Fed(parser, consumed) && |consumed| + |buffer| <= parser.reader.limits.maxResponseBytes
    modifies parser
    ensures failure.Some? ==> Fatal(parser.reader, consumed + buffer)
    ensures failure == None ==> Fed(parser, fed) && fed + rest == consumed + buffer
    ensures failure == None ==>
            (forall i :: 0 <= i < |rest| ==> rest[i] != LF) && |rest| <= parser.reader.limits.maxLineBytes
  {
    rest, fed := buffer, consumed;
    while true
      invariant Fed(parser, fed) && fed + rest == consumed + buffer
      decreases |rest|
    {
      var newline := FirstLF(rest);
      if newline == |rest| {
        if |rest| > parser.reader.limits.maxLineBytes {
          LongPartialIsFatal(parser.reader, fed, rest, parser.State());
          return Some(LineTooLong), rest, fed;
        }
        return None, rest, fed;
      }
      var line := rest[..newline + 1];
      ghost var behind := rest[newline + 1..];
      TakeLine(rest, newline);
      assert |fed + rest| == |fed| + |line| + |behind| == |consumed + buffer|;
      failure := FeedLine(parser, line, fed, behind);
      if failure.Some? {
        return failure, rest, fed;
      }
      rest := rest[newline + 1..];
      assert fed + line + rest == fed + (line + rest);
      fed := fed + line;
    }
  }

  /**
   `_consume_ndjson` over an arbitrary chunking: it succeeds exactly when the reassembled
   stream means something, and then delivers exactly that meaning.
   */
  method ConsumeNdjson(reader: Reader, chunks: seq<Bytes>) returns (outcome: Result<(seq<Event>, Bundle), Failure>)
    ensures outcome.Ok? <==> StreamMeaning(reader, Concat(chunks)).Ok?
    ensures outcome.Ok? ==> outcome == StreamMeaning(reader, Concat(chunks))
  {
    var parser := new JsonlResultParser(reader);
    var buffer: Bytes := [];
    var total := 0;
    ghost var fed: Bytes := [];
    assert SplitLF([]) == [];
    for k := 0 to |chunks|
      invariant parser.reader == reader && Fed(parser, fed) && fed + buffer == Concat(chunks[..k])
      invariant total == |Concat(chunks[..k])| <= reader.limits.maxResponseBytes
      invariant forall i :: 0 <= i < |buffer| ==> buffer[i] != LF
    {
      assert chunks[..k + 1][..k] == chunks[..k];
      ghost var remaining := ConcatPrefix(chunks, k + 1);
      total := total + |chunks[k]|;
      if total > reader.limits.maxResponseBytes {
        return Err(ResponseTooLarge);
      }
      assert fed + (buffer + chunks[k]) == fed + buffer + chunks[k];
      buffer := buffer + chunks[k];
      var failed, rest, nowFed := DrainBuffer(parser, buffer, fed);
      if failed.Some? {
        assert fed + buffer + remaining == Concat(chunks);
        return Err(failed.value);
      }
      buffer, fed := rest, nowFed;
    }
    assert chunks[..|chunks|] == chunks;
    ghost var content := Concat(chunks);
    if buffer != [] {
      ghost var p := parser.State();
      var failure := parser.ConsumeLine(buffer);
      if failure.Some? {
        BadLineFails(reader, fed, buffer, [], p);
        assert fed + buffer + [] == content;
        return Err(failure.value);
      }
      GoodLineAdvances(reader, fed, buffer, p, parser.State());
    } else {
      assert fed + buffer == fed;
    }
    var finished := parser.FinishParse();
    match finished {
      case Err(e) => return Err(e);
      case Ok(bundle) => return Ok((parser.emitted, bundle));
    }
  }

  // ----- The batch parser -----

  function BatchMeaning(reader: Reader, content: Bytes): Result<(seq<Event>, Bundle), Failure> {
    if |content| > reader.limits.maxResponseBytes then Err(ResponseTooLarge)
    else
      match AcceptLines(reader, EMPTY, SplitUniversal(content))
      case Err(e) => Err(e)
      case Ok(p) => Finish(reader, p)
  }

  /** `parse_jsonl_response`, with its own local state and its own order of checks. */
  method ParseJsonlResponse(reader: Reader, content: Bytes) returns (outcome: Result<(seq<Event>, Bundle), Failure>)
    ensures outcome == BatchMeaning(reader, content)
  {
    if |content| > reader.limits.maxResponseBytes {
      return Err(ResponseTooLarge);
    }
    var lines := SplitUniversal(content);
    var events: seq<Event> := [];
    var result: Option<Bundle> := None;
    var previousSequence: int := -1;
    for k := 0 to |lines|
      invariant AcceptLines(reader, Parse(events, previousSequence, result), lines[k..])
              == AcceptLines(reader, EMPTY, lines)
    {
      var raw := lines[k];
      assert lines[k..][0] == raw && lines[k..][1..] == lines[k + 1..];
      if |raw| > reader.limits.maxLineBytes {
        return Err(LineTooLong);
      }
      var line := Strip(raw);
      if line == [] {
        continue;
      }
      if result.Some? {
        return Err(RecordAfterResult);
      }
      match reader.decode(line) {
        case Malformed =>
          return Err(MalformedRecord);
        case EventRecord(event) =>
          if |events| >= reader.limits.maxEvents {
            return Err(TooManyEvents);
          }
          if event.None? {
            return Err(InvalidModel);
          }
          if event.value.attemptId != reader.attemptId || event.value.episodeId != reader.episodeId
             || event.value.sequence <= previousSequence {
            return Err(BadTraceSequence);
          }
          previousSequence := event.value.sequence;
          events := events + [event.value];
        case ResultRecord(bundle) =>
          if bundle.None? {
            return Err(InvalidModel);
          }
          result := bundle;
      }
    }
    if result.None? {
      return Err(NoResult);
    }
    var ok := ValidateResultTransportLimits(result.value, reader.limits);
    if !ok {
      return Err(ArtifactTooLarge);
    }
    return Ok((events, result.value));
  }

  // ----- Streaming equals batch -----

  /** Without a bare carriage return the two readers accept the same bytes with the same events and result. */
  lemma {:induction false} StreamingEqualsBatch(reader: Reader, content: Bytes)
    requires NoBareReturn(content)
    ensures StreamMeaning(reader, content) == BatchMeaning(reader, content)
  {
    FramingsAgreeExactly(content);
  }

  /** Accepted events belong to the attempt, are strictly increasing and within the limit. */
  lemma {:induction false} AcceptedEventsAreOrdered(reader: Reader, p: Parse, lines: seq<Bytes>)
    requires AcceptLines(reader, p, lines).Ok? && OrderedFor(reader, p)
    ensures OrderedFor(reader, AcceptLines(reader, p, lines).value)
    ensures p.events <= AcceptLines(reader, p, lines).value.events
    ensures p.result.Some? ==> AcceptLines(reader, p, lines).value == p
    decreases |lines|
  {
    if lines != [] {
      AcceptedEventsAreOrdered(reader, AcceptLine(reader, p, lines[0]).value, lines[1..]);
    }
  }

  predicate OrderedFor(reader: Reader, p: Parse) {
    && |p.events| <= reader.limits.maxEvents
    && (forall i :: 0 <= i < |p.events| ==>
          p.events[i].attemptId == reader.attemptId && p.events[i].episodeId == reader.episodeId &&
            p.events[i].sequence <= p.previous)
    && (forall i, j :: 0 <= i < j < |p.events| ==> p.events[i].sequence < p.events[j].sequence)
  }

  /**
   A bare carriage return separates the readers: the batch parser accepts two records where the
   stream sees one bad line.
   */
  lemma {:induction false} BareReturnSeparatesTheReaders() returns (reader: Reader, content: Bytes)
    ensures !NoBareReturn(content)
    ensures BatchMeaning(reader, content).Ok? && StreamMeaning(reader, content).Err?
  {
    var bundle := Bundle([], "result");
    var event := Event("attempt", "episode", 0, "event");
    var decode: Bytes -> Record := (line: Bytes) =>
      if line == [65] then EventRecord(Some(event)) else if line == [66] then ResultRecord(Some(bundle)) else Malformed;
    reader := Reader(decode, "attempt", "episode", Limits(100, 10, 5, 100, 100));
    var a, b: Byte := 65, 66;
    content := [a, CR, b, LF];
    assert content[1] == CR;
    BatchOfTwo(reader, [a, CR], [b, LF], content);
    HeadLine(content, []);
    assert content + [] == content;
    assert SplitLF(content) == [content];
    assert Strip(content) == [a, CR, b] by { assert content[..3] == [a, CR, b]; }
    assert AcceptLine(reader, EMPTY, content).Err?;
  }

  lemma {:induction false} BatchOfTwo(reader: Reader, first: Bytes, second: Bytes, content: Bytes)
    requires content == first + second && |first| == 2 && |second| == 2
    requires first[0] == 65 && first[1] == CR && second[0] == 66 && second[1] == LF
    requires reader.limits.maxResponseBytes >= 4 && reader.limits.maxLineBytes >= 2 && reader.limits.maxEvents >= 1
    requires reader.decode([65]) == EventRecord(Some(Event(reader.attemptId, reader.episodeId, 0, "event")))
    requires reader.decode([66]) == ResultRecord(Some(Bundle([], "result")))
    ensures BatchMeaning(reader, content).Ok?
  {
    assert content[0] == 65 && content[1] == CR && content[2] == 66;
    assert FirstBreak(content[1..]) == 0;
    assert FirstBreak(content) == 1 && LineEnd(content) == 2;
    assert content[..2] == first && content[2..] == second;
    assert FirstBreak(second[1..]) == 0;
    assert LineEnd(second) == 2 && second[..2] == second && second[2..] == [];
    assert SplitUniversal(second) == [second] + SplitUniversal([]) == [second];
    assert SplitUniversal(content) == [first] + [second];
    StripOne(first);
    StripOne(second);
    var p := AcceptLine(reader, EMPTY, first).value;
    AcceptOne(reader, p, second);
    AcceptOne(reader, EMPTY, first);
    AcceptAppend(reader, EMPTY, [first], [second]);
  }

  lemma {:induction false} StripOne(line: Bytes)
    requires |line| == 2 && line[0] != CR && line[0] != LF && (line[1] == CR || line[1] == LF)
    ensures Strip(line) == [line[0]]
  {
    assert line[..1] == [line[0]];
  }
}
