/** The credential filter for server-sent events: a buffer that is fed in chunks and emitted in
    whole events, against filtering the whole stream line by line. */
module SseFilter {
  import opened JsText

  const MAX_BUFFER: nat := 1024 * 1024
  const DATA: Text := [100, 97, 116, 97, 58]
  const BREAK: Text := [NEWLINE, NEWLINE]

  predicate HasPrefix(t: Text, p: Text) {
    |p| <= |t| && t[..|p|] == p
  }

  /** `data:` lines have their content redacted, other lines pass. */
  function FilterLine(redact: Text -> Text, line: Text): Text {
    if HasPrefix(line, DATA) then
      var prefix := if HasPrefix(line, DATA + [SPACE]) then DATA + [SPACE] else DATA;
      prefix + redact(line[|prefix|..])
    else line
  }

  function FilterLines(redact: Text -> Text, lines: seq<Text>): (r: seq<Text>)
    ensures |r| == |lines| && forall i :: 0 <= i < |lines| ==> r[i] == FilterLine(redact, lines[i])
  {
    seq(|lines|, i requires 0 <= i < |lines| => FilterLine(redact, lines[i]))
  }

  /** The one-shot filter. */
  function FilterText(redact: Text -> Text, t: Text): Text {
    Join(FilterLines(redact, Split(t, NEWLINE)), NEWLINE)
  }

  /** `t.indexOf("\n\n")`. */
  function FindBreak(t: Text): (r: Option<nat>)
    ensures r.Some? ==> r.value + 2 <= |t| && t[r.value] == t[r.value + 1] == NEWLINE
  {
    if |t| < 2 then None
    else if t[0] == NEWLINE && t[1] == NEWLINE then Some(0)
    else
      var r := FindBreak(t[1..]);
      if r.Some? then Some(r.value + 1) else None
  }

  /** The complete events of a buffer, filtered, and what is left over. */
  function Drain(redact: Text -> Text, buffer: Text): (r: (seq<Text>, Text))
    ensures |r.1| <= |buffer|
    decreases |buffer|
  {
    var end := FindBreak(buffer);
    if end.None? then ([], buffer)
    else
      var (events, rest) := Drain(redact, buffer[end.value + 2..]);
      ([FilterText(redact, buffer[..end.value]) + BREAK] + events, rest)
  }

  function Feed(redact: Text -> Text, buffer: Text, chunk: Text): (seq<Text>, Text) {
    var b := buffer + chunk;
    if |b| > MAX_BUFFER then ([FilterText(redact, b) + BREAK], []) else Drain(redact, b)
  }

  function Finish(redact: Text -> Text, buffer: Text): seq<Text> {
    if |buffer| > 0 then [FilterText(redact, buffer)] else []
  }

  function Flat(parts: seq<Text>): Text {
    if parts == [] then [] else parts[0] + Flat(parts[1..])
  }

  /** Everything that a stream of chunks makes the filter emit, the final flush included. */
  function Output(redact: Text -> Text, buffer: Text, chunks: seq<Text>): Text
    decreases |chunks|
  {
    if chunks == [] then Flat(Finish(redact, buffer))
    else
      var (out, rest) := Feed(redact, buffer, chunks[0]);
      Flat(out) + Output(redact, rest, chunks[1..])
  }

  // ---- Filtering and line structure.

  lemma FilterLinesAppend(redact: Text -> Text, p: seq<Text>, q: seq<Text>)
    ensures FilterLines(redact, p + q) == FilterLines(redact, p) + FilterLines(redact, q)
  { }

  /** Filtering line by line commutes with cutting at a newline. */
  lemma FilterAcross(redact: Text -> Text, a: Text, b: Text)
    ensures FilterText(redact, a + [NEWLINE] + b) == FilterText(redact, a) + [NEWLINE] + FilterText(redact, b)
  {
    var p, q := Split(a, NEWLINE), Split(b, NEWLINE);
    SplitAcross(a, NEWLINE, b);
    FilterLinesAppend(redact, p, q);
    JoinAcross(FilterLines(redact, p), FilterLines(redact, q), NEWLINE);
  }

  lemma FilterEmpty(redact: Text -> Text)
    ensures FilterText(redact, []) == []
  {
    assert Split([], NEWLINE) == [[]];
    assert FilterLines(redact, [[]]) == [[]];
  }

  lemma Associate(a: Text, b: Text, c: Text)
    ensures (a + b) + c == a + (b + c)
  { }

  lemma FilterAcrossBreak(redact: Text -> Text, a: Text, b: Text)
    ensures FilterText(redact, a + BREAK + b) == FilterText(redact, a) + BREAK + FilterText(redact, b)
  {
    assert a + BREAK + b == (a + [NEWLINE] + []) + [NEWLINE] + b;
    FilterAcross(redact, a + [NEWLINE] + [], b);
    FilterAcross(redact, a, []);
    FilterEmpty(redact);
    var x := FilterText(redact, a);
    assert (x + [NEWLINE] + []) + [NEWLINE] == x + BREAK;
  }

  /** Draining emits the filtered text of what it consumes, whatever is still to come. */
  lemma {:induction false} DrainFilters(redact: Text -> Text, buffer: Text, more: Text)
    ensures Flat(Drain(redact, buffer).0) + FilterText(redact, Drain(redact, buffer).1 + more)
      == FilterText(redact, buffer + more)
    decreases |buffer|
  {
    var end := FindBreak(buffer);
    if end.Some? {
      var a, b := buffer[..end.value], buffer[end.value + 2..];
      assert buffer == a + BREAK + b;
      DrainFilters(redact, b, more);
      DrainStep(redact, a, b, more);
    } else {
      assert [] + FilterText(redact, buffer + more) == FilterText(redact, buffer + more);
    }
  }

  /** Draining leaves no complete event behind. */
  lemma {:induction false} DrainExhausts(redact: Text -> Text, buffer: Text)
    ensures FindBreak(Drain(redact, buffer).1).None?
    decreases |buffer|
  {
    var end := FindBreak(buffer);
    if end.Some? {
      DrainExhausts(redact, buffer[end.value + 2..]);
    }
  }

  lemma DrainStep(redact: Text -> Text, a: Text, b: Text, more: Text)
    requires var (events, rest) := Drain(redact, b);
      Flat(events) + FilterText(redact, rest + more) == FilterText(redact, b + more)
    ensures var (events, rest) := Drain(redact, b);
      Flat([FilterText(redact, a) + BREAK] + events) + FilterText(redact, rest + more)
      == FilterText(redact, (a + BREAK + b) + more)
  {
    var (events, rest) := Drain(redact, b);
    var first := FilterText(redact, a) + BREAK;
    assert ([first] + events)[1..] == events;
    Associate(first, Flat(events), FilterText(redact, rest + more));
    FilterAcrossBreak(redact, a, b + more);
    Associate(a + BREAK, b, more);
  }

  // ---- Chunking.

  /** The stretches of the stream between forced flushes. `since` is the text since the last
      one. */
  function Stretches(redact: Text -> Text, since: Text, buffer: Text, chunks: seq<Text>): (r: seq<Text>)
    ensures r != []
    decreases |chunks|
  {
    if chunks == [] then [since]
    else if |buffer + chunks[0]| > MAX_BUFFER then [since + chunks[0]] + Stretches(redact, [], [], chunks[1..])
    else Stretches(redact, since + chunks[0], Drain(redact, buffer + chunks[0]).1, chunks[1..])
  }

  /** The filtered stretches, each forced flush closing its stretch with a blank line. */
  function Framed(redact: Text -> Text, stretches: seq<Text>): Text
    requires stretches != []
  {
    if |stretches| == 1 then FilterText(redact, stretches[0])
    else FilterText(redact, stretches[0]) + BREAK + Framed(redact, stretches[1..])
  }

  /** What was emitted and the filtered buffer make up the filtered stretch, whatever comes. */
  ghost predicate InStep(redact: Text -> Text, emitted: Text, since: Text, buffer: Text) {
    forall more :: emitted + FilterText(redact, buffer + more) == FilterText(redact, since + more)
  }

  lemma InStepAt(redact: Text -> Text, emitted: Text, since: Text, buffer: Text, more: Text)
    requires InStep(redact, emitted, since, buffer)
    ensures emitted + FilterText(redact, buffer + more) == FilterText(redact, since + more)
  { }

  lemma InStepStart(redact: Text -> Text)
    ensures InStep(redact, [], [], [])
  {
    forall more ensures [] + FilterText(redact, [] + more) == FilterText(redact, [] + more) { }
  }

  lemma InStepDrain(redact: Text -> Text, emitted: Text, since: Text, buffer: Text, chunk: Text)
    requires InStep(redact, emitted, since, buffer)
    ensures var (events, rest) := Drain(redact, buffer + chunk);
      InStep(redact, emitted + Flat(events), since + chunk, rest)
  {
    var (events, rest) := Drain(redact, buffer + chunk);
    forall more
      ensures emitted + Flat(events) + FilterText(redact, rest + more) == FilterText(redact, since + chunk + more)
    {
      DrainFilters(redact, buffer + chunk, more);
      InStepAt(redact, emitted, since, buffer, chunk + more);
      Associate(buffer, chunk, more);
      Associate(since, chunk, more);
      Associate(emitted, Flat(events), FilterText(redact, rest + more));
    }
  }

  lemma FramedCons(redact: Text -> Text, first: Text, others: seq<Text>)
    requires others != []
    ensures Framed(redact, [first] + others) == FilterText(redact, first) + BREAK + Framed(redact, others)
  {
    assert ([first] + others)[1..] == others;
  }

  lemma FlatOne(t: Text)
    ensures Flat([t]) == t
  {
    assert t + [] == t;
  }

  lemma {:induction false} OutputFramed(
    redact: Text -> Text, emitted: Text, since: Text, buffer: Text, chunks: seq<Text>)
    requires InStep(redact, emitted, since, buffer)
    ensures emitted + Output(redact, buffer, chunks) == Framed(redact, Stretches(redact, since, buffer, chunks))
    decreases |chunks|
  {
    if chunks == [] {
      OutputAtEnd(redact, emitted, since, buffer);
    } else if |buffer + chunks[0]| > MAX_BUFFER {
      InStepStart(redact);
      OutputFramed(redact, [], [], [], chunks[1..]);
      OutputOnOverflow(redact, emitted, since, buffer, chunks);
    } else {
      var (out, rest) := Drain(redact, buffer + chunks[0]);
      InStepDrain(redact, emitted, since, buffer, chunks[0]);
      OutputFramed(redact, emitted + Flat(out), since + chunks[0], rest, chunks[1..]);
      Associate(emitted, Flat(out), Output(redact, rest, chunks[1..]));
    }
  }

  lemma OutputAtEnd(redact: Text -> Text, emitted: Text, since: Text, buffer: Text)
    requires InStep(redact, emitted, since, buffer)
    ensures emitted + Output(redact, buffer, []) == FilterText(redact, since)
  {
    InStepAt(redact, emitted, since, buffer, []);
    assert buffer + [] == buffer && since + [] == since;
    FilterEmpty(redact);
    FlatOne(FilterText(redact, buffer));
  }

  lemma OutputOnOverflow(redact: Text -> Text, emitted: Text, since: Text, buffer: Text, chunks: seq<Text>)
    requires InStep(redact, emitted, since, buffer) && chunks != [] && |buffer + chunks[0]| > MAX_BUFFER
    requires [] + Output(redact, [], chunks[1..]) == Framed(redact, Stretches(redact, [], [], chunks[1..]))
    ensures emitted + Output(redact, buffer, chunks) == Framed(redact, Stretches(redact, since, buffer, chunks))
  {
    var later := Output(redact, [], chunks[1..]);
    var filtered := FilterText(redact, buffer + chunks[0]);
    assert Output(redact, buffer, chunks) == (filtered + BREAK) + later by { FlatOne(filtered + BREAK); }
    InStepAt(redact, emitted, since, buffer, chunks[0]);
    FramedCons(redact, since + chunks[0], Stretches(redact, [], [], chunks[1..]));
    Associate(emitted, filtered, BREAK);
    Associate(emitted, filtered + BREAK, later);
    assert [] + later == later;
  }

  /** For every way of cutting a stream into chunks, the emitted text is the line filter of each
      stretch between forced flushes. */
  lemma StreamFramed(redact: Text -> Text, chunks: seq<Text>)
    ensures Output(redact, [], chunks) == Framed(redact, Stretches(redact, [], [], chunks))
  {
    InStepStart(redact);
    OutputFramed(redact, [], [], [], chunks);
    assert [] + Output(redact, [], chunks) == Output(redact, [], chunks);
  }

  lemma FlatCons(first: Text, others: seq<Text>)
    ensures Flat([first] + others) == first + Flat(others)
  {
    assert ([first] + others)[1..] == others;
  }

  /** The stretches are the stream. */
  lemma {:induction false} StretchesCover(redact: Text -> Text, since: Text, buffer: Text, chunks: seq<Text>)
    ensures Flat(Stretches(redact, since, buffer, chunks)) == since + Flat(chunks)
    decreases |chunks|
  {
    if chunks == [] {
      FlatOne(since);
    } else if |buffer + chunks[0]| > MAX_BUFFER {
      StretchesCover(redact, [], [], chunks[1..]);
      FlatCons(since + chunks[0], Stretches(redact, [], [], chunks[1..]));
      assert [] + Flat(chunks[1..]) == Flat(chunks[1..]);
      Associate(since, chunks[0], Flat(chunks[1..]));
    } else {
      StretchesCover(redact, since + chunks[0], Drain(redact, buffer + chunks[0]).1, chunks[1..]);
      Associate(since, chunks[0], Flat(chunks[1..]));
    }
  }

  ghost predicate Overflows(redact: Text -> Text, buffer: Text, chunks: seq<Text>)
    decreases |chunks|
  {
    chunks != []
    && (|buffer + chunks[0]| > MAX_BUFFER || Overflows(redact, Drain(redact, buffer + chunks[0]).1, chunks[1..]))
  }

  lemma {:induction false} OneStretchIffNoOverflow(redact: Text -> Text, since: Text, buffer: Text, chunks: seq<Text>)
    ensures |Stretches(redact, since, buffer, chunks)| == 1 <==> !Overflows(redact, buffer, chunks)
    decreases |chunks|
  {
    if chunks != [] && |buffer + chunks[0]| <= MAX_BUFFER {
      OneStretchIffNoOverflow(redact, since + chunks[0], Drain(redact, buffer + chunks[0]).1, chunks[1..]);
    }
  }

  /** Without a forced flush chunking does not matter: the output is the one-shot filter of the
      whole stream. */
  lemma ChunkingDoesNotMatter(redact: Text -> Text, chunks: seq<Text>)
    requires !Overflows(redact, [], chunks)
    ensures Output(redact, [], chunks) == FilterText(redact, Flat(chunks))
  {
    StreamFramed(redact, chunks);
    OneStretchIffNoOverflow(redact, [], [], chunks);
    StretchesCover(redact, [], [], chunks);
    var s := Stretches(redact, [], [], chunks);
    assert s[1..] == [] && s[0] + [] == s[0] && [] + Flat(chunks) == Flat(chunks);
  }

  // ---- Events.

  /** Splitting a stream at its blank lines. */
  function Events(t: Text): seq<Text>
    decreases |t|
  {
    var end := FindBreak(t);
    if end.None? then [t] else [t[..end.value]] + Events(t[end.value + 2..])
  }

  ghost predicate AddsNoNewline(redact: Text -> Text) {
    forall t :: NEWLINE !in t ==> NEWLINE !in redact(t)
  }

  lemma FilteredLine(redact: Text -> Text, line: Text)
    requires AddsNoNewline(redact) && NEWLINE !in line
    ensures NEWLINE !in FilterLine(redact, line) && (FilterLine(redact, line) == [] <==> line == [])
  {
    if HasPrefix(line, DATA) {
      var prefix := if HasPrefix(line, DATA + [SPACE]) then DATA + [SPACE] else DATA;
      assert forall u :: u in line[|prefix|..] ==> u in line;
      assert NEWLINE !in prefix;
    }
  }

  /** The lines of the output are the filtered lines of the input. */
  lemma FilterKeepsLines(redact: Text -> Text, t: Text)
    requires AddsNoNewline(redact)
    ensures Split(FilterText(redact, t), NEWLINE) == FilterLines(redact, Split(t, NEWLINE))
  {
    var lines := Split(t, NEWLINE);
    forall i | 0 <= i < |lines| ensures NEWLINE !in FilterLines(redact, lines)[i] {
      FilteredLine(redact, lines[i]);
    }
    SplitJoin(FilterLines(redact, lines), NEWLINE);
  }

  ghost predicate NoBlankLine(lines: seq<Text>, upTo: int) {
    forall i :: 1 <= i < upTo && i < |lines| ==> lines[i] != []
  }

  predicate EndsInNewline(t: Text) {
    t != [] && t[|t| - 1] == NEWLINE
  }

  lemma SplitHead(t: Text)
    requires t != []
    ensures Split(t, NEWLINE)[0] == [] <==> t[0] == NEWLINE
    ensures t[0] == NEWLINE ==> |Split(t, NEWLINE)| >= 2
  { }

  lemma NoBlankLineCons(x: Text, rest: seq<Text>, upTo: int)
    requires rest != [] && upTo >= 0
    ensures NoBlankLine([x] + rest, upTo + 1) <==> NoBlankLine(rest, upTo) && (upTo >= 1 ==> rest[0] != [])
  {
    var lines := [x] + rest;
    forall i | 1 <= i < |lines| ensures lines[i] == rest[i - 1] { }
    if NoBlankLine(lines, upTo + 1) {
      forall i | 1 <= i < upTo && i < |rest| ensures rest[i] != [] { assert lines[i + 1] == rest[i]; }
      if upTo >= 1 { assert lines[1] == rest[0]; }
    }
  }

  lemma NoBlankLineHead(x: Text, y: Text, rest: seq<Text>, upTo: int)
    ensures NoBlankLine([x] + rest, upTo) <==> NoBlankLine([y] + rest, upTo)
  {
    var a, b := [x] + rest, [y] + rest;
    assert forall i :: 1 <= i < |a| ==> a[i] == b[i];
  }

  /** Blank lines in the sense of `indexOf`, read off the lines. */
  lemma {:induction false} BreakIffBlankLine(t: Text)
    ensures FindBreak(t).None? <==> NoBlankLine(Split(t, NEWLINE), |Split(t, NEWLINE)| - 1)
    ensures FindBreak(t).None? && !EndsInNewline(t) <==> NoBlankLine(Split(t, NEWLINE), |Split(t, NEWLINE)|)
  {
    if t != [] {
      BreakIffBlankLine(t[1..]);
      var rest := Split(t[1..], NEWLINE);
      if t[0] == NEWLINE {
        NoBlankLineCons([], rest, |rest| - 1);
        NoBlankLineCons([], rest, |rest|);
        if t[1..] != [] { SplitHead(t[1..]); }
      } else {
        NoBlankLineHead([t[0]] + rest[0], rest[0], rest[1..], |rest| - 1);
        NoBlankLineHead([t[0]] + rest[0], rest[0], rest[1..], |rest|);
        assert [rest[0]] + rest[1..] == rest;
      }
    }
  }

  lemma FilterKeepsBlankLines(redact: Text -> Text, lines: seq<Text>, upTo: int)
    requires AddsNoNewline(redact) && forall i :: 0 <= i < |lines| ==> NEWLINE !in lines[i]
    ensures NoBlankLine(FilterLines(redact, lines), upTo) <==> NoBlankLine(lines, upTo)
  {
    forall i | 0 <= i < |lines| ensures FilterLines(redact, lines)[i] == [] <==> lines[i] == [] {
      FilteredLine(redact, lines[i]);
    }
  }

  lemma BreaksAlike(redact: Text -> Text, t: Text, g: Text)
    requires AddsNoNewline(redact) && Split(g, NEWLINE) == FilterLines(redact, Split(t, NEWLINE))
    ensures FindBreak(t).None? <==> FindBreak(g).None?
    ensures FindBreak(t).None? && !EndsInNewline(t) <==> FindBreak(g).None? && !EndsInNewline(g)
  {
    BlankLinesAlike(redact, Split(t, NEWLINE), Split(g, NEWLINE));
    SameBreaks(t, g, Split(t, NEWLINE), Split(g, NEWLINE));
  }

  lemma SameBreaks(t: Text, g: Text, lines: seq<Text>, filtered: seq<Text>)
    requires lines == Split(t, NEWLINE) && filtered == Split(g, NEWLINE)
    requires NoBlankLine(filtered, |filtered| - 1) <==> NoBlankLine(lines, |lines| - 1)
    requires NoBlankLine(filtered, |filtered|) <==> NoBlankLine(lines, |lines|)
    ensures FindBreak(t).None? <==> FindBreak(g).None?
    ensures FindBreak(t).None? && !EndsInNewline(t) <==> FindBreak(g).None? && !EndsInNewline(g)
  {
    BreakIffBlankLine(t);
    BreakIffBlankLine(g);
  }

  lemma BlankLinesAlike(redact: Text -> Text, lines: seq<Text>, filtered: seq<Text>)
    requires AddsNoNewline(redact) && filtered == FilterLines(redact, lines)
    requires forall i :: 0 <= i < |lines| ==> NEWLINE !in lines[i]
    ensures |filtered| == |lines|
    ensures NoBlankLine(filtered, |filtered| - 1) <==> NoBlankLine(lines, |lines| - 1)
    ensures NoBlankLine(filtered, |filtered|) <==> NoBlankLine(lines, |lines|)
  {
    FilterKeepsBlankLines(redact, lines, |lines| - 1);
    FilterKeepsBlankLines(redact, lines, |lines|);
  }

  lemma FilterKeepsBreaks(redact: Text -> Text, t: Text)
    requires AddsNoNewline(redact)
    ensures FindBreak(t).None? <==> FindBreak(FilterText(redact, t)).None?
    ensures FindBreak(t).None? && !EndsInNewline(t)
      <==> FindBreak(FilterText(redact, t)).None? && !EndsInNewline(FilterText(redact, t))
  {
    FilterKeepsLines(redact, t);
    BreaksAlike(redact, t, FilterText(redact, t));
  }

  lemma {:induction false} FirstBreak(a: Text, b: Text)
    requires FindBreak(a).None? && !EndsInNewline(a)
    ensures FindBreak(a + BREAK + b) == Some(|a|)
  {
    if a != [] {
      assert (a + BREAK + b)[1..] == a[1..] + BREAK + b;
      FirstBreak(a[1..], b);
    }
  }

  lemma {:induction false} BeforeBreak(t: Text)
    requires FindBreak(t).Some?
    ensures var e := t[..FindBreak(t).value]; FindBreak(e).None? && !EndsInNewline(e)
  {
    var n := FindBreak(t).value;
    if n > 0 {
      BeforeBreak(t[1..]);
      assert t[..n][1..] == t[1..][..n - 1];
    }
  }

  /** `filtered` holds the same events, each one filtered. */
  ghost predicate FilteredEach(redact: Text -> Text, events: seq<Text>, filtered: seq<Text>) {
    |filtered| == |events| && forall i :: 0 <= i < |events| ==> filtered[i] == FilterText(redact, events[i])
  }

  lemma FilteredEachCons(redact: Text -> Text, event: Text, events: seq<Text>, filtered: seq<Text>)
    requires FilteredEach(redact, events, filtered)
    ensures FilteredEach(redact, [event] + events, [FilterText(redact, event)] + filtered)
  { }

  lemma EventsOfTwo(a: Text, b: Text)
    requires FindBreak(a).None? && !EndsInNewline(a)
    ensures Events(a + BREAK + b) == [a] + Events(b)
  {
    var t := a + BREAK + b;
    FirstBreak(a, b);
    assert t[..|a|] == a && t[|a| + 2..] == b;
  }

  /** Re-splitting the filtered stream at blank lines gives the filtered events. */
  lemma {:induction false} EventsFiltered(redact: Text -> Text, t: Text)
    requires AddsNoNewline(redact)
    ensures FilteredEach(redact, Events(t), Events(FilterText(redact, t)))
    decreases |t|
  {
    var end := FindBreak(t);
    FilterKeepsBreaks(redact, t);
    if end.Some? {
      var a, b := t[..end.value], t[end.value + 2..];
      assert t == a + BREAK + b;
      BeforeBreak(t);
      FilterKeepsBreaks(redact, a);
      FilterAcrossBreak(redact, a, b);
      EventsOfTwo(FilterText(redact, a), FilterText(redact, b));
      EventsOfTwo(a, b);
      EventsFiltered(redact, b);
      FilteredEachCons(redact, a, Events(b), Events(FilterText(redact, b)));
    }
  }

  /** Chunked filtering delivers exactly the filtered events of the stream. */
  lemma StreamEvents(redact: Text -> Text, chunks: seq<Text>)
    requires AddsNoNewline(redact) && !Overflows(redact, [], chunks)
    ensures var delivered, sent := Events(Output(redact, [], chunks)), Events(Flat(chunks));
      |delivered| == |sent| && forall i :: 0 <= i < |sent| ==> delivered[i] == FilterText(redact, sent[i])
  {
    ChunkingDoesNotMatter(redact, chunks);
    EventsFiltered(redact, Flat(chunks));
  }

  // ---- What becomes of each line.

  /** The content of a `data:` line is redacted, after the blank if one follows the colon; other lines stay. */
  ghost predicate LineRedacted(redact: Text -> Text, sent: Text, got: Text) {
    && (forall x: Text :: sent == DATA + [SPACE] + x ==> got == DATA + [SPACE] + redact(x))
    && (forall x: Text :: sent == DATA + x && (x == [] || x[0] != SPACE) ==> got == DATA + redact(x))
    && ((forall x: Text :: sent != DATA + x) ==> got == sent)
  }

  ghost predicate LinesRedacted(redact: Text -> Text, sent: seq<Text>, got: seq<Text>) {
    |got| == |sent| && forall i :: 0 <= i < |sent| ==> LineRedacted(redact, sent[i], got[i])
  }

  /** `got` is the text `sent` with each of its lines redacted. */
  ghost predicate Redacted(redact: Text -> Text, sent: Text, got: Text) {
    LinesRedacted(redact, Split(sent, NEWLINE), Split(got, NEWLINE))
  }

  lemma PrefixIff(t: Text, p: Text)
    ensures HasPrefix(t, p) <==> exists x: Text :: t == p + x
  {
    if HasPrefix(t, p) { assert t == p + t[|p|..]; }
    if x: Text :| t == p + x { assert t[..|p|] == p; }
  }

  lemma AfterPrefix(p: Text, x: Text)
    ensures HasPrefix(p + x, p) && (p + x)[|p|..] == x
  { }

  lemma SpacedPrefix(x: Text)
    requires HasPrefix(DATA + x, DATA + [SPACE])
    ensures x != [] && x[0] == SPACE
  {
    assert (DATA + x)[..6][5] == (DATA + [SPACE])[5];
  }

  lemma FilterLineRedacts(redact: Text -> Text, line: Text)
    ensures LineRedacted(redact, line, FilterLine(redact, line))
  {
    var got, spaced := FilterLine(redact, line), DATA + [SPACE];
    PrefixIff(line, DATA);
    forall x: Text | line == spaced + x ensures got == spaced + redact(x) {
      AfterPrefix(spaced, x);
      assert line == DATA + ([SPACE] + x);
    }
    forall x: Text | line == DATA + x && (x == [] || x[0] != SPACE) ensures got == DATA + redact(x) {
      AfterPrefix(DATA, x);
      if HasPrefix(line, spaced) { SpacedPrefix(x); }
    }
  }

  lemma FilterRedacts(redact: Text -> Text, t: Text)
    requires AddsNoNewline(redact)
    ensures Redacted(redact, t, FilterText(redact, t))
  {
    FilterKeepsLines(redact, t);
    var lines := Split(t, NEWLINE);
    forall i | 0 <= i < |lines| ensures LineRedacted(redact, lines[i], FilterLine(redact, lines[i])) {
      FilterLineRedacts(redact, lines[i]);
    }
  }

  /** Without a forced flush the receiver gets the lines of the stream, each redacted, however it was cut into
      chunks. */
  lemma StreamRedacted(redact: Text -> Text, chunks: seq<Text>)
    requires AddsNoNewline(redact) && !Overflows(redact, [], chunks)
    ensures Redacted(redact, Flat(chunks), Output(redact, [], chunks))
  {
    ChunkingDoesNotMatter(redact, chunks);
    FilterRedacts(redact, Flat(chunks));
  }

  /** The stretches, a blank line between any two. */
  function Spaced(stretches: seq<Text>): Text
    requires stretches != []
  {
    if |stretches| == 1 then stretches[0] else stretches[0] + BREAK + Spaced(stretches[1..])
  }

  /** With forced flushes it gets those lines, and a blank line more at each flush. */
  lemma FlushedStreamRedacted(redact: Text -> Text, chunks: seq<Text>)
    requires AddsNoNewline(redact)
    ensures Redacted(redact, Spaced(Stretches(redact, [], [], chunks)), Output(redact, [], chunks))
  {
    var stretches := Stretches(redact, [], [], chunks);
    StreamFramed(redact, chunks);
    FramedIsFiltered(redact, stretches);
    FilterRedacts(redact, Spaced(stretches));
  }

  lemma {:induction false} FramedIsFiltered(redact: Text -> Text, stretches: seq<Text>)
    requires stretches != []
    ensures Framed(redact, stretches) == FilterText(redact, Spaced(stretches))
  {
    if |stretches| > 1 {
      FramedIsFiltered(redact, stretches[1..]);
      FilterAcrossBreak(redact, stretches[0], Spaced(stretches[1..]));
    }
  }

  /** The event that is still incomplete: what follows the last blank line. */
  function Unfinished(t: Text): Text {
    Events(t)[|Events(t)| - 1]
  }

  lemma {:induction false} DrainLeavesUnfinished(redact: Text -> Text, t: Text)
    ensures Drain(redact, t).1 == Unfinished(t)
    decreases |t|
  {
    var end := FindBreak(t);
    if end.Some? {
      DrainLeavesUnfinished(redact, t[end.value + 2..]);
    }
  }

  lemma {:induction false} BreakStays(t: Text, more: Text)
    requires FindBreak(t).Some?
    ensures FindBreak(t + more) == FindBreak(t)
  {
    if !(t[0] == NEWLINE && t[1] == NEWLINE) {
      assert (t + more)[1..] == t[1..] + more;
      BreakStays(t[1..], more);
    }
  }

  lemma {:induction false} UnfinishedGrows(t: Text, more: Text)
    ensures Unfinished(Unfinished(t) + more) == Unfinished(t + more)
    decreases |t|
  {
    var end := FindBreak(t);
    if end.Some? {
      var rest := t[end.value + 2..];
      BreakStays(t, more);
      assert (t + more)[end.value + 2..] == rest + more;
      UnfinishedGrows(rest, more);
    }
  }

  /** A stream is flushed by force exactly when some chunk makes an unfinished event longer than the limit. */
  lemma OverflowsIff(redact: Text -> Text, chunks: seq<Text>)
    ensures Overflows(redact, [], chunks) <==>
      exists k :: 0 <= k < |chunks| && |Unfinished(Flat(chunks[..k])) + chunks[k]| > MAX_BUFFER
  {
    OverflowsFrom(redact, [], chunks);
    forall k | 0 <= k < |chunks| ensures [] + Flat(chunks[..k]) == Flat(chunks[..k]) { }
    if k :| 0 <= k < |chunks| && |Unfinished(Flat(chunks[..k])) + chunks[k]| > MAX_BUFFER {
      assert TooLong([], chunks, k);
    }
  }

  predicate TooLong(since: Text, chunks: seq<Text>, k: int) {
    0 <= k < |chunks| && |Unfinished(since + Flat(chunks[..k])) + chunks[k]| > MAX_BUFFER
  }

  lemma TooLongLater(since: Text, first: Text, rest: seq<Text>, k: nat)
    ensures TooLong(since, [first] + rest, k + 1) <==> TooLong(since + first, rest, k)
  {
    if k < |rest| {
      assert ([first] + rest)[..k + 1] == [first] + rest[..k];
      FlatCons(first, rest[..k]);
      Associate(since, first, Flat(rest[..k]));
    }
  }

  lemma TooLongAtOnce(since: Text, first: Text, rest: seq<Text>)
    ensures TooLong(since, [first] + rest, 0) <==> |Unfinished(since) + first| > MAX_BUFFER
    ensures Unfinished(Unfinished(since) + first) == Unfinished(since + first)
  {
    assert ([first] + rest)[..0] == [] && since + [] == since;
    UnfinishedGrows(since, first);
  }

  lemma SomeTooLong(since: Text, first: Text, rest: seq<Text>)
    ensures (exists k :: TooLong(since, [first] + rest, k))
      <==> TooLong(since, [first] + rest, 0) || exists k :: TooLong(since + first, rest, k)
  {
    if k :| TooLong(since + first, rest, k) { TooLongLater(since, first, rest, k); }
    if k :| TooLong(since, [first] + rest, k) {
      if k > 0 { TooLongLater(since, first, rest, k - 1); }
    }
  }

  lemma {:induction false} OverflowsFrom(redact: Text -> Text, since: Text, chunks: seq<Text>)
    ensures Overflows(redact, Unfinished(since), chunks) <==> exists k :: TooLong(since, chunks, k)
    decreases |chunks|
  {
    if chunks != [] {
      var first, rest := chunks[0], chunks[1..];
      assert chunks == [first] + rest;
      TooLongAtOnce(since, first, rest);
      SomeTooLong(since, first, rest);
      DrainLeavesUnfinished(redact, Unfinished(since) + first);
      OverflowsFrom(redact, since + first, rest);
    }
  }

  /** What one chunk makes the filter emit: with the buffer it makes up `given`, of which `rest` is kept back.
      Up to there everything is redacted, and it ends with a complete event; too much of it is redacted as it
      stands and closed. */
  ghost predicate Emits(redact: Text -> Text, given: Text, out: Text, rest: Text) {
    if |given| > MAX_BUFFER then rest == [] && Redacted(redact, given + BREAK, out)
    else
      exists taken: Text :: given == taken + rest && rest == Unfinished(given) && Redacted(redact, taken, out)
  }

  lemma FeedEmits(redact: Text -> Text, buffer: Text, chunk: Text)
    requires AddsNoNewline(redact)
    ensures var (out, rest) := Feed(redact, buffer, chunk); Emits(redact, buffer + chunk, Flat(out), rest)
  {
    var given := buffer + chunk;
    if |given| > MAX_BUFFER {
      FlatOne(FilterText(redact, given) + BREAK);
      FilterAcrossBreak(redact, given, []);
      FilterEmpty(redact);
      assert given + BREAK + [] == given + BREAK;
      assert FilterText(redact, given) + BREAK + [] == FilterText(redact, given) + BREAK;
      FilterRedacts(redact, given + BREAK);
    } else {
      var taken := DrainTakes(redact, given);
      FilterRedacts(redact, taken);
      DrainLeavesUnfinished(redact, given);
    }
  }

  lemma {:induction false} DrainTakes(redact: Text -> Text, t: Text) returns (taken: Text)
    ensures t == taken + Drain(redact, t).1 && Flat(Drain(redact, t).0) == FilterText(redact, taken)
    decreases |t|
  {
    var end := FindBreak(t);
    if end.None? {
      taken := [];
      FilterEmpty(redact);
    } else {
      var a, b := t[..end.value], t[end.value + 2..];
      assert t == a + BREAK + b;
      var more := DrainTakes(redact, b);
      taken := a + BREAK + more;
      Associate(a + BREAK, more, Drain(redact, b).1);
      FilterAcrossBreak(redact, a, more);
      FlatCons(FilterText(redact, a) + BREAK, Drain(redact, b).0);
    }
  }

  lemma FinishRedacts(redact: Text -> Text, buffer: Text)
    requires AddsNoNewline(redact)
    ensures Redacted(redact, buffer, Flat(Finish(redact, buffer)))
  {
    FilterRedacts(redact, buffer);
    FlatOne(FilterText(redact, buffer));
    FilterEmpty(redact);
  }

  // ---- The transformer.

  /** One round of the loop over complete events, `out` being what was emitted before. */
  lemma DrainNext(redact: Text -> Text, buffer: Text, n: nat, event: Text, rest: (seq<Text>, Text), out: seq<Text>)
    requires FindBreak(buffer) == Some(n) && event == FilterText(redact, buffer[..n]) + BREAK
    requires rest == Drain(redact, buffer[n + 2..])
    ensures out + Drain(redact, buffer).0 == out + [event] + rest.0
    ensures Drain(redact, buffer).1 == rest.1
  {
    MoveOver(out, event, rest.0);
  }

  lemma MoveOver<T>(out: seq<T>, x: T, more: seq<T>)
    ensures out + ([x] + more) == out + [x] + more
  { }

  class Filter {
    const redact: Text -> Text
    var buffer: Text

    constructor (redact: Text -> Text)
      ensures this.redact == redact && buffer == []
    {
      this.redact := redact;
      buffer := [];
    }

    method FilterAll(text: Text) returns (r: Text)
      ensures r == FilterText(redact, text)
    {
      var lines := Split(text, NEWLINE);
      r := Join(FilterLines(redact, lines), NEWLINE);
    }

    /** Takes one chunk and returns what it enqueues. */
    method Transform(chunk: Text) returns (out: seq<Text>)
      modifies this
      ensures (out, buffer) == Feed(redact, old(buffer), chunk)
      ensures AddsNoNewline(redact) ==> Emits(redact, old(buffer) + chunk, Flat(out), buffer)
    {
      if AddsNoNewline(redact) { FeedEmits(redact, buffer, chunk); }
      buffer := buffer + chunk;
      if |buffer| > MAX_BUFFER {
        var filtered := FilterAll(buffer);
        buffer := [];
        return [filtered + BREAK];
      }
      out := [];
      ghost var whole := buffer;
      assert [] + Drain(redact, whole).0 == Drain(redact, whole).0;
      var eventEnd := FindBreak(buffer);
      while eventEnd.Some?
        invariant eventEnd == FindBreak(buffer)
        invariant Drain(redact, whole).0 == out + Drain(redact, buffer).0
        invariant Drain(redact, whole).1 == Drain(redact, buffer).1
        decreases |buffer|
      {
        var event := buffer[..eventEnd.value];
        ghost var before, n := buffer, eventEnd.value;
        buffer := buffer[eventEnd.value + 2..];
        var filtered := FilterAll(event);
        DrainNext(redact, before, n, filtered + BREAK, Drain(redact, buffer), out);
        out := out + [filtered + BREAK];
        eventEnd := FindBreak(buffer);
      }
      assert out + [] == out;
      assert Drain(redact, whole).0 == out && Drain(redact, whole).1 == buffer;
    }

    method Flush() returns (out: seq<Text>)
      ensures out == Finish(redact, buffer)
      ensures AddsNoNewline(redact) ==> Redacted(redact, buffer, Flat(out))
    {
      if AddsNoNewline(redact) { FinishRedacts(redact, buffer); }
      out := [];
      if |buffer| > 0 {
        var filtered := FilterAll(buffer);
        out := [filtered];
      }
    }
  }
}
