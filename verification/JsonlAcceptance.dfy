/** Which responses the two readers accept: the framing, the records and the limits, said of the bytes themselves. */
module JsonlAcceptance {
  import opened Prelude
  import opened JsonlStream

  // ----- Framing and stripping, said of the result -----

  predicate IsBreak(b: Byte) { b == 10 || b == 13 }

  /** The stripped line is what remains before the trailing carriage returns and line feeds. */
  lemma {:induction false} StripExactly(line: Bytes)
    ensures Strip(line) <= line && forall i :: |Strip(line)| <= i < |line| ==> IsBreak(line[i])
    ensures Strip(line) != [] ==> !IsBreak(line[|Strip(line)| - 1])
  {
    if line != [] && IsBreak(line[|line| - 1]) { StripExactly(line[..|line| - 1]); }
  }

  function Join(lines: seq<Bytes>): Bytes {
    if lines == [] then [] else lines[0] + Join(lines[1..])
  }

  /** Line feeds stand at the ends of lines only, and every line but the last has one. */
  predicate FeedFramed(lines: seq<Bytes>) {
    && (forall k :: 0 <= k < |lines| ==> FeedLineOk(lines[k]))
    && forall k :: 0 <= k < |lines| - 1 ==> EndsWith(lines[k], 10)
  }

  predicate FeedLineOk(line: Bytes) { line != [] && forall i :: 0 <= i < |line| - 1 ==> line[i] != 10 }

  predicate EndsWith(line: Bytes, b: Byte) { line != [] && line[|line| - 1] == b }

  /** The streaming reader's lines: together the content, each ending at its only line feed. */
  lemma {:induction false} SplitLFExactly(s: Bytes)
    ensures Join(SplitLF(s)) == s && FeedFramed(SplitLF(s))
    decreases |s|
  {
    if s != [] {
      var first, rest := FirstFeedLine(s);
      SplitLFExactly(rest);
      FeedFramedCons(first, SplitLF(rest));
      JoinCons(first, SplitLF(rest));
    }
  }

  lemma {:induction false} FirstFeedLine(s: Bytes) returns (first: Bytes, rest: Bytes)
    requires s != []
    ensures s == first + rest && |rest| < |s| && SplitLF(s) == [first] + SplitLF(rest)
    ensures FeedLineOk(first) && (SplitLF(rest) != [] ==> EndsWith(first, 10))
  {
    var b := LineFeedEnd(s);
    SplitLFHead(s);
    first, rest := s[..b], s[b..];
  }

  lemma {:induction false} FeedFramedCons(line: Bytes, lines: seq<Bytes>)
    requires FeedLineOk(line) && FeedFramed(lines) && (lines != [] ==> EndsWith(line, 10))
    ensures FeedFramed([line] + lines)
  {
    var all := [line] + lines;
    forall k | 0 <= k < |all| ensures FeedLineOk(all[k]) {
      if k > 0 { assert all[k] == lines[k - 1]; }
    }
    forall k | 0 <= k < |all| - 1 ensures EndsWith(all[k], 10) {
      if k > 0 { assert all[k] == lines[k - 1]; }
    }
  }

  /** A line has at most one ending: a line feed, a carriage return, or the two together. */
  predicate UniversalLineOk(line: Bytes) {
    && line != [] && (forall i :: 0 <= i < |line| - 2 ==> !IsBreak(line[i]))
    && (|line| >= 2 && IsBreak(line[|line| - 2]) ==> line[|line| - 2] == 13 && line[|line| - 1] == 10)
  }

  /** Every line but the last is ended, and no line feed is torn from its carriage return. */
  predicate UniversalFramed(lines: seq<Bytes>) {
    && (forall k :: 0 <= k < |lines| ==> UniversalLineOk(lines[k]))
    && forall k :: 0 <= k < |lines| - 1 ==> Follows(lines[k], lines[k + 1])
  }

  predicate Follows(line: Bytes, next: Bytes) {
    (EndsWith(line, 10) || EndsWith(line, 13)) && !(EndsWith(line, 13) && next != [] && next[0] == 10)
  }

  /** The batch reader's lines likewise, with all three endings. */
  lemma {:induction false} SplitUniversalExactly(s: Bytes)
    ensures Join(SplitUniversal(s)) == s && UniversalFramed(SplitUniversal(s))
    decreases |s|
  {
    if s != [] {
      var first, rest := FirstUniversal(s);
      SplitUniversalExactly(rest);
      ConsFramed(first, SplitUniversal(rest));
    }
  }

  lemma {:induction false} FirstUniversal(s: Bytes) returns (first: Bytes, rest: Bytes)
    requires s != []
    ensures s == first + rest && |rest| < |s| && UniversalLineOk(first)
    ensures SplitUniversal(s) == [first] + SplitUniversal(rest)
    ensures SplitUniversal(rest) != [] ==> Follows(first, SplitUniversal(rest)[0])
  {
    var b := UniversalHead(s);
    first, rest := s[..b], s[b..];
    RestFollows(first, rest, SplitUniversal(rest));
  }

  /** Where the first line ends, what it looks like, and what cannot come next. */
  lemma {:induction false} UniversalHead(s: Bytes) returns (b: nat)
    requires s != []
    ensures 0 < b <= |s| && SplitUniversal(s) == [s[..b]] + SplitUniversal(s[b..]) && UniversalLineOk(s[..b])
    ensures b < |s| ==> IsBreak(s[b - 1]) && !(s[b - 1] == 13 && s[b] == 10)
  {
    b := LineEnd(s);
    FirstUniversalLine(s, b);
  }

  lemma {:induction false} RestFollows(first: Bytes, rest: Bytes, lines: seq<Bytes>)
    requires first != [] && lines == SplitUniversal(rest)
    requires rest != [] ==> IsBreak(first[|first| - 1]) && !(first[|first| - 1] == 13 && rest[0] == 10)
    ensures lines != [] ==> Follows(first, lines[0])
  {
    if rest != [] {
      var c := UniversalHead(rest);
      assert lines[0] == rest[..c];
    }
  }

  lemma {:induction false} ConsFramed(line: Bytes, lines: seq<Bytes>)
    requires UniversalLineOk(line) && UniversalFramed(lines) && (lines != [] ==> Follows(line, lines[0]))
    ensures Join([line] + lines) == line + Join(lines) && UniversalFramed([line] + lines)
  {
    JoinCons(line, lines);
    UniversalFramedCons(line, lines);
  }

  lemma {:induction false} JoinCons(line: Bytes, lines: seq<Bytes>)
    ensures Join([line] + lines) == line + Join(lines)
  {
    assert ([line] + lines)[1..] == lines;
  }

  lemma {:induction false} FirstUniversalLine(s: Bytes, b: nat)
    requires s != [] && b == LineEnd(s)
    ensures UniversalLineOk(s[..b])
    ensures b < |s| ==> IsBreak(s[b - 1]) && !(s[b - 1] == 13 && s[b] == 10)
  {
    var k := FirstBreak(s);
    assert forall i :: 0 <= i < k ==> !IsBreak(s[i]);
  }

  lemma {:induction false} UniversalFramedCons(line: Bytes, lines: seq<Bytes>)
    requires UniversalLineOk(line) && UniversalFramed(lines) && (lines != [] ==> Follows(line, lines[0]))
    ensures UniversalFramed([line] + lines)
  {
    var all := [line] + lines;
    forall k | 0 <= k < |all| ensures UniversalLineOk(all[k]) {
      if k > 0 { assert all[k] == lines[k - 1]; }
    }
    forall k | 0 <= k < |all| - 1 ensures Follows(all[k], all[k + 1]) {
      if k > 0 { assert all[k] == lines[k - 1] && all[k + 1] == lines[k]; }
    }
  }

  // ----- Acceptance -----

  /** The stripped lines that are not blank. */
  function Seen(lines: seq<Bytes>): seq<Bytes> {
    if lines == [] then []
    else
      var record := Strip(lines[|lines| - 1]);
      Seen(lines[..|lines| - 1]) + (if record == [] then [] else [record])
  }

  predicate AllWithin(lines: seq<Bytes>, limit: nat) {
    forall k :: 0 <= k < |lines| ==> |lines[k]| <= limit
  }

  function PreviousOf(events: seq<Event>): int {
    if events == [] then -1 else events[|events| - 1].sequence
  }

  /** Not too many events, all of the attempt and its episode, with strictly increasing sequence numbers. */
  predicate InOrder(reader: Reader, events: seq<Event>) {
    && |events| <= reader.limits.maxEvents
    && (forall k :: 0 <= k < |events| ==>
          events[k].attemptId == reader.attemptId && events[k].episodeId == reader.episodeId)
    && forall i, j :: 0 <= i < j < |events| ==> events[i].sequence < events[j].sequence
  }

  /** The records are these events, one by one, followed by the result if there is one. */
  predicate Tells(reader: Reader, records: seq<Bytes>, events: seq<Event>, result: Option<Bundle>) {
    && |records| == |events| + (if result.Some? then 1 else 0)
    && (forall k :: 0 <= k < |events| ==> reader.decode(records[k]) == EventRecord(Some(events[k])))
    && (result.Some? ==> reader.decode(records[|events|]) == ResultRecord(result))
  }

  predicate Parses(reader: Reader, records: seq<Bytes>, p: Parse) {
    p.previous == PreviousOf(p.events) && InOrder(reader, p.events) && Tells(reader, records, p.events, p.result)
  }

  lemma {:induction false} LineParses(reader: Reader, records: seq<Bytes>, p: Parse, raw: Bytes)
    requires Parses(reader, records, p) && AcceptLine(reader, p, raw).Ok?
    ensures |raw| <= reader.limits.maxLineBytes
    ensures Parses(reader, if Strip(raw) == [] then records else records + [Strip(raw)],
                   AcceptLine(reader, p, raw).value)
  {
  }

  /** The parse before its last record. */
  function Without(p: Parse): Parse {
    if p.result.Some? then p.(result := None)
    else if p.events == [] then p
    else Parse(p.events[..|p.events| - 1], PreviousOf(p.events[..|p.events| - 1]), None)
  }

  lemma {:induction false} LineAccepted(reader: Reader, records: seq<Bytes>, q: Parse, raw: Bytes)
    requires |raw| <= reader.limits.maxLineBytes && Strip(raw) != [] && Parses(reader, records + [Strip(raw)], q)
    ensures Parses(reader, records, Without(q)) && AcceptLine(reader, Without(q), raw) == Ok(q)
  {
    var all := records + [Strip(raw)];
    assert forall k :: 0 <= k < |records| ==> all[k] == records[k];
    assert all[|records|] == Strip(raw);
    if q.result.None? {
      var n := |q.events| - 1;
      assert q.events == q.events[..n] + [q.events[n]];
      WithoutEvent(reader, records, q, all);
    }
  }

  lemma {:induction false} WithoutEvent(reader: Reader, records: seq<Bytes>, q: Parse, all: seq<Bytes>)
    requires Parses(reader, all, q) && q.result.None? && |all| == |records| + 1
    requires forall k :: 0 <= k < |records| ==> all[k] == records[k]
    ensures Parses(reader, records, Without(q)) && Without(q).previous < q.previous
  {
  }

  lemma {:induction false} LinesParse(reader: Reader, lines: seq<Bytes>, q: Parse)
    ensures AcceptLines(reader, EMPTY, lines) == Ok(q)
            <==> AllWithin(lines, reader.limits.maxLineBytes) && Parses(reader, Seen(lines), q)
    decreases |lines|, 0
  {
    if lines != [] {
      var before, raw := lines[..|lines| - 1], lines[|lines| - 1];
      assert lines == before + [raw];
      AcceptAppend(reader, EMPTY, before, [raw]);
      assert AllWithin(lines, reader.limits.maxLineBytes) ==> AllWithin(before, reader.limits.maxLineBytes);
      if AcceptLines(reader, EMPTY, lines) == Ok(q) {
        LastLineParses(reader, before, raw, q);
      }
      if AllWithin(lines, reader.limits.maxLineBytes) && Parses(reader, Seen(lines), q) {
        LastLineAccepted(reader, before, raw, q);
      }
    }
  }

  lemma {:induction false} LastLineParses(reader: Reader, before: seq<Bytes>, raw: Bytes, q: Parse)
    requires AcceptLines(reader, EMPTY, before + [raw]) == Ok(q)
    ensures AllWithin(before + [raw], reader.limits.maxLineBytes) && Parses(reader, Seen(before + [raw]), q)
    decreases |before|, 1
  {
    var lines := before + [raw];
    assert lines[..|before|] == before && lines[|before|] == raw;
    AcceptAppend(reader, EMPTY, before, [raw]);
    var p := AcceptLines(reader, EMPTY, before).value;
    AcceptOne(reader, p, raw);
    LinesParse(reader, before, p);
    LineParses(reader, Seen(before), p, raw);
    assert Seen(before) + [] == Seen(before);
  }

  lemma {:induction false} LastLineAccepted(reader: Reader, before: seq<Bytes>, raw: Bytes, q: Parse)
    requires AllWithin(before + [raw], reader.limits.maxLineBytes) && Parses(reader, Seen(before + [raw]), q)
    ensures AcceptLines(reader, EMPTY, before + [raw]) == Ok(q)
    decreases |before|, 1
  {
    var lines := before + [raw];
    assert lines[..|before|] == before && lines[|before|] == raw;
    forall k | 0 <= k < |before| ensures |before[k]| <= reader.limits.maxLineBytes {
      assert lines[k] == before[k];
    }
    AcceptAppend(reader, EMPTY, before, [raw]);
    if Strip(raw) == [] {
      assert Seen(before) + [] == Seen(before);
      LinesParse(reader, before, q);
      AcceptOne(reader, q, raw);
    } else {
      LineAccepted(reader, Seen(before), q, raw);
      LinesParse(reader, before, Without(q));
      AcceptOne(reader, Without(q), raw);
    }
  }

  // ----- The two readers -----

  /** The declared inline sizes, added up. */
  function Inline(artifacts: seq<Artifact>): nat {
    if artifacts == [] then 0
    else (match artifacts[0].inlineSize case None => 0 case Some(size) => size) + Inline(artifacts[1..])
  }

  lemma {:induction false} InlineSnoc(artifacts: seq<Artifact>, a: Artifact)
    ensures Inline(artifacts + [a]) == Inline(artifacts) + (match a.inlineSize case None => 0 case Some(size) => size)
  {
    if artifacts == [] {
      assert [a][1..] == [] && artifacts + [a] == [a];
    } else {
      assert (artifacts + [a])[1..] == artifacts[1..] + [a];
      InlineSnoc(artifacts[1..], a);
    }
  }

  lemma {:induction false} InlineIsTotal(artifacts: seq<Artifact>)
    ensures InlineTotal(artifacts) == Inline(artifacts)
  {
    if artifacts != [] {
      var before, last := artifacts[..|artifacts| - 1], artifacts[|artifacts| - 1];
      assert artifacts == before + [last];
      InlineIsTotal(before);
      InlineSnoc(before, last);
    }
  }

  /** Inline artifacts are within the single and the total limit. */
  predicate Fits(artifacts: seq<Artifact>, limits: Limits) {
    && (forall k :: 0 <= k < |artifacts| && artifacts[k].inlineSize.Some? ==>
          artifacts[k].inlineSize.value <= limits.maxArtifactBytes)
    && Inline(artifacts) <= limits.maxTotalArtifactBytes
  }

  /** Everything that makes a framed response acceptable. */
  predicate Acceptable(reader: Reader, content: Bytes, lines: seq<Bytes>, events: seq<Event>, bundle: Bundle) {
    && |content| <= reader.limits.maxResponseBytes && AllWithin(lines, reader.limits.maxLineBytes)
    && Tells(reader, Seen(lines), events, Some(bundle)) && InOrder(reader, events)
    && Fits(bundle.artifacts, reader.limits)
  }

  lemma {:induction false} ConcludesExactly(reader: Reader, lines: seq<Bytes>, events: seq<Event>, bundle: Bundle)
    ensures (match AcceptLines(reader, EMPTY, lines) case Err(e) => Err(e) case Ok(p) => Finish(reader, p))
            == Ok((events, bundle))
            <==> && AllWithin(lines, reader.limits.maxLineBytes)
                 && Tells(reader, Seen(lines), events, Some(bundle)) && InOrder(reader, events)
                 && Fits(bundle.artifacts, reader.limits)
  {
    InlineIsTotal(bundle.artifacts);
    LinesParse(reader, lines, Parse(events, PreviousOf(events), Some(bundle)));
    if AcceptLines(reader, EMPTY, lines).Ok? {
      LinesParse(reader, lines, AcceptLines(reader, EMPTY, lines).value);
    }
  }

  /** The streaming reader returns these events and this result exactly when its lines tell them within all limits. */
  lemma {:induction false} StreamAcceptsExactly(reader: Reader, content: Bytes, events: seq<Event>, bundle: Bundle)
    ensures StreamMeaning(reader, content) == Ok((events, bundle))
            <==> Acceptable(reader, content, SplitLF(content), events, bundle)
  {
    ConcludesExactly(reader, SplitLF(content), events, bundle);
  }

  /** The batch reader likewise, over its own lines. */
  lemma {:induction false} BatchAcceptsExactly(reader: Reader, content: Bytes, events: seq<Event>, bundle: Bundle)
    ensures BatchMeaning(reader, content) == Ok((events, bundle))
            <==> Acceptable(reader, content, SplitUniversal(content), events, bundle)
  {
    ConcludesExactly(reader, SplitUniversal(content), events, bundle);
  }
}
