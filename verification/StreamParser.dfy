/**
  The incremental JSON-Lines extractor of the planner's observer bridge. JSON itself is a parameter: a codec reads
  one value off the front of a text, as `raw_decode` does, and says which planner events the value carries.
 */
module StreamParser {
  import opened Wrappers
  import Text

  const MAX_PENDING: nat := 16384

  datatype Event = Event(kind: string, content: string)

  /** A decoded value: an `events` envelope or list, a single event, or anything else. */
  datatype Payload = Batch(events: seq<Event>) | Single(event: Event) | Foreign

  datatype Decoded = Decoded(payload: Payload, length: nat)

  type Codec = string -> Option<Decoded>

  /** `raw_decode` consumes at least one character and no more than there are. */
  function Decode(codec: Codec, s: string): Option<Decoded> {
    match codec(s)
    case None => None
    case Some(d) => if 0 < d.length <= |s| then Some(d) else None
  }

  /** `json.loads` of text without surrounding space. */
  function Loads(codec: Codec, s: string): Option<Payload> {
    match Decode(codec, s)
    case None => None
    case Some(d) => if d.length == |s| then Some(d.payload) else None
  }

  /** `_collect_events_from_payload`. */
  function EventsIn(p: Payload): seq<Event> {
    match p
    case Batch(es) => es
    case Single(e) => [e]
    case Foreign => []
  }

  // ----- Text -----

  /** The characters `str.splitlines` splits at. */
  predicate IsLineEnd(c: char) {
    '\n' <= c <= '\r' || '\U{1C}' <= c <= '\U{1E}' || c == '\U{85}' || c == '\U{2028}' || c == '\U{2029}'
  }

  function FirstLineEnd(s: string): (n: nat)
    ensures n <= |s|
  {
    if s == "" || IsLineEnd(s[0]) then 0 else 1 + FirstLineEnd(s[1..])
  }

  /** `str.splitlines()`. */
  function SplitLines(s: string): seq<string>
    decreases |s|
  {
    if s == "" then []
    else
      var n := FirstLineEnd(s);
      if n == |s| then [s]
      else
        var width := if s[n] == '\r' && n + 1 < |s| && s[n + 1] == '\n' then 2 else 1;
        [s[..n]] + SplitLines(s[n + width..])
  }

  predicate StartsWith(s: string, t: string) {
    |t| <= |s| && s[..|t|] == t
  }

  predicate Contains(s: string, t: string) {
    exists i :: 0 <= i <= |s| && StartsWith(s[i..], t)
  }

  /** `_looks_like_json_event_envelope_start`. */
  predicate LooksStructured(value: string) {
    var text := Text.Strip(value);
    text != "" && (text[0] == '{' || text[0] == '[' || Contains(text, "\"type\"") || Contains(text, "\"events\""))
  }

  // ----- What the extractor computes -----

  datatype Values = Values(payloads: seq<Payload>, rest: string)

  /** `_decode_json_stream`: values off the front until one does not decode. */
  function DecodeStream(codec: Codec, buffer: string): Values
    decreases |buffer|
  {
    var s := Text.StripLeft(buffer);
    if s == "" then Values([], "")
    else
      match Decode(codec, s)
      case None => Values([], s)
      case Some(d) =>
        var more := DecodeStream(codec, s[d.length..]);
        Values([d.payload] + more.payloads, more.rest)
  }

  function AllEventsIn(ps: seq<Payload>): seq<Event> {
    if ps == [] then [] else AllEventsIn(ps[..|ps| - 1]) + EventsIn(ps[|ps| - 1])
  }

  datatype State = State(events: seq<Event>, plain: seq<string>, pending: string, locked: bool)

  function AppendPending(base: string, line: string): string {
    if base != "" then base + "\n" + line else line
  }

  /** One complete line. */
  function LineStep(codec: Codec, st: State, raw: string): State {
    var line := Text.Strip(raw);
    if line == "" || StartsWith(line, "```") then st
    else if !st.locked && !LooksStructured(line) then st.(plain := st.plain + [line])
    else
      match Loads(codec, line)
      case Some(p) =>
        if EventsIn(p) != [] then st.(events := st.events + EventsIn(p), locked := false)
        else st.(pending := AppendPending(st.pending, line), locked := true)
      case None => st.(pending := AppendPending(st.pending, line), locked := true)
  }

  function LineSteps(codec: Codec, st: State, lines: seq<string>): State {
    if lines == [] then st else LineStep(codec, LineSteps(codec, st, lines[..|lines| - 1]), lines[|lines| - 1])
  }

  /** What is left after the complete lines: decode it, pass it on, or keep it. */
  function Settle(codec: Codec, st: State): State {
    if Text.Strip(st.pending) == "" then st
    else if st.locked || LooksStructured(st.pending) then
      var values := DecodeStream(codec, st.pending);
      var rebuilt, blank := AllEventsIn(values.payloads), Text.Strip(values.rest) == "";
      State(st.events + rebuilt, st.plain, values.rest, if rebuilt != [] && blank then false else !blank || st.locked)
    else st.(plain := st.plain + [Text.Strip(st.pending)], pending := "")
  }

  /** The overflow guard. */
  function Bounded(st: State): State {
    if |st.pending| > MAX_PENDING then State(st.events, st.plain + [Text.Strip(st.pending)], "", false) else st
  }

  predicate EndsLine(s: string)
    requires s != ""
  {
    s[|s| - 1] == '\n' || s[|s| - 1] == '\r'
  }

  function Extract(codec: Codec, chunk: string, pending: string, locked: bool): State {
    var combined := pending + chunk;
    if combined == "" then State([], [], "", locked)
    else
      var lines := SplitLines(combined);
      if EndsLine(combined) || lines == [] then
        Bounded(Settle(codec, LineSteps(codec, State([], [], "", locked), lines)))
      else
        var last := lines[|lines| - 1];
        Bounded(Settle(codec, LineSteps(codec, State([], [], last, locked || LooksStructured(last)), lines[..|lines| - 1])))
  }

  // ----- The code -----

  lemma StripLeftStep(buffer: string, index: nat)
    requires index < |buffer|
    ensures Text.StripLeft(buffer[index..]) ==
      if Text.IsSpace(buffer[index]) then Text.StripLeft(buffer[index + 1..]) else buffer[index..]
  {
    assert buffer[index..][1..] == buffer[index + 1..];
  }

  /** The blanks both decoders skip before a value. */
  method SkipBlanks(s: string, from: nat) returns (to: nat)
    requires from <= |s|
    ensures from <= to <= |s| && s[to..] == Text.StripLeft(s[from..])
  {
    to := from;
    while to < |s| && Text.IsSpace(s[to])
      invariant from <= to <= |s|
      invariant Text.StripLeft(s[to..]) == Text.StripLeft(s[from..])
    {
      StripLeftStep(s, to);
      to := to + 1;
    }
    if to < |s| {
      StripLeftStep(s, to);
    }
  }

  lemma DecodeTurn(codec: Codec, s: string, from: nat, to: nat)
    requires from <= to <= |s| && s[to..] == Text.StripLeft(s[from..])
    ensures to == |s| ==> DecodeStream(codec, s[from..]) == Values([], "")
    ensures to < |s| && Decode(codec, s[to..]).None? ==> DecodeStream(codec, s[from..]) == Values([], s[to..])
    ensures to < |s| && Decode(codec, s[to..]).Some? ==>
      var d := Decode(codec, s[to..]).value;
      && 0 < d.length && to + d.length <= |s|
      && var more := DecodeStream(codec, s[to + d.length..]);
         DecodeStream(codec, s[from..]) == Values([d.payload] + more.payloads, more.rest)
  {
    hide Text.StripLeft;
    if to < |s| && Decode(codec, s[to..]).Some? {
      var d := Decode(codec, s[to..]).value;
      assert s[to..][d.length..] == s[to + d.length..];
    }
  }

  lemma DecodedEarlier(codec: Codec, buffer: string, values: seq<Payload>, payload: Payload, more: Values)
    requires Values(values + ([payload] + more.payloads), more.rest) == DecodeStream(codec, buffer)
    ensures Values(values + [payload] + more.payloads, more.rest) == DecodeStream(codec, buffer)
  {
    assert values + [payload] + more.payloads == values + ([payload] + more.payloads);
  }

  method DecodeJsonStream(codec: Codec, buffer: string) returns (values: seq<Payload>, rest: string)
    ensures Values(values, rest) == DecodeStream(codec, buffer)
  {
    hide DecodeStream, Decode, Text.StripLeft;
    values := [];
    var index := 0;
    assert buffer[0..] == buffer;
    while index < |buffer|
      invariant index <= |buffer|
      invariant Values(values + DecodeStream(codec, buffer[index..]).payloads, DecodeStream(codec, buffer[index..]).rest)
             == DecodeStream(codec, buffer)
      decreases |buffer| - index
    {
      var next := SkipBlanks(buffer, index);
      DecodeTurn(codec, buffer, index, next);
      if next >= |buffer| {
        return values, "";
      }
      match Decode(codec, buffer[next..])
      case None =>
        return values, buffer[next..];
      case Some(d) =>
        DecodedEarlier(codec, buffer, values, d.payload, DecodeStream(codec, buffer[next + d.length..]));
        values := values + [d.payload];
        index := next + d.length;
    }
    DecodeNothing(codec);
    assert buffer[index..] == "";
    rest := "";
  }

  lemma DecodeNothing(codec: Codec)
    ensures DecodeStream(codec, "") == Values([], "")
  {
  }

  method CollectAll(values: seq<Payload>) returns (events: seq<Event>)
    ensures events == AllEventsIn(values)
  {
    events := [];
    for i := 0 to |values|
      invariant events == AllEventsIn(values[..i])
    {
      assert values[..i + 1][..i] == values[..i];
      events := events + EventsIn(values[i]);
    }
    assert values[..|values|] == values;
  }

  lemma NoLines(codec: Codec, st: State, lines: seq<string>)
    ensures LineSteps(codec, st, lines[..0]) == st
  {
  }

  lemma NextLine(codec: Codec, st: State, lines: seq<string>, i: nat)
    requires i < |lines|
    ensures LineSteps(codec, st, lines[..i + 1]) == LineStep(codec, LineSteps(codec, st, lines[..i]), lines[i])
  {
    hide LineStep;
    assert lines[..i + 1][..i] == lines[..i];
  }

  /** `_extract_structured_events_from_chunk`. */
  method ExtractStructuredEvents(codec: Codec, chunk: string, pendingBuffer: string, structuredModeLocked: bool)
    returns (extracted: seq<Event>, nextPending: string, plainLines: seq<string>, nextLocked: bool)
    ensures State(extracted, plainLines, nextPending, nextLocked) == Extract(codec, chunk, pendingBuffer, structuredModeLocked)
    ensures |nextPending| <= MAX_PENDING
  {
    hide LooksStructured, Loads, DecodeStream, SplitLines, Text.Strip, StartsWith, AllEventsIn, EventsIn, AppendPending, LineSteps;
    var combined := pendingBuffer + chunk;
    if combined == "" {
      return [], "", [], structuredModeLocked;
    }
    var lines := SplitLines(combined);
    extracted, nextPending, plainLines, nextLocked := [], "", [], structuredModeLocked;
    if !EndsLine(combined) && lines != [] {
      nextPending, lines := lines[|lines| - 1], lines[..|lines| - 1];
      if LooksStructured(nextPending) {
        nextLocked := true;
      }
    }
    ghost var start := State([], [], nextPending, nextLocked);
    NoLines(codec, start, lines);
    for i := 0 to |lines|
      invariant State(extracted, plainLines, nextPending, nextLocked) == LineSteps(codec, start, lines[..i])
    {
      NextLine(codec, start, lines, i);
      var line := Text.Strip(lines[i]);
      if line == "" {
        continue;
      }
      if StartsWith(line, "```") {
        continue;
      }
      if !nextLocked && LooksStructured(line) {
        nextLocked := true;
      }
      if !nextLocked {
        plainLines := plainLines + [line];
        continue;
      }
      var loaded := Loads(codec, line);
      if loaded.Some? {
        var events := EventsIn(loaded.value);
        if events != [] {
          extracted := extracted + events;
          nextLocked := false;
          continue;
        }
      }
      nextPending := AppendPending(nextPending, line);
      nextLocked := true;
    }
    assert lines[..|lines|] == lines;
    ghost var before := State(extracted, plainLines, nextPending, nextLocked);
    if Text.Strip(nextPending) != "" {
      if nextLocked || LooksStructured(nextPending) {
        var values, remaining := DecodeJsonStream(codec, nextPending);
        var rebuilt := CollectAll(values);
        extracted := extracted + rebuilt;
        nextPending := remaining;
        if rebuilt != [] && Text.Strip(nextPending) == "" {
          nextLocked := false;
        } else {
          nextLocked := Text.Strip(nextPending) != "" || nextLocked;
        }
      } else {
        plainLines := plainLines + [Text.Strip(nextPending)];
        nextPending := "";
      }
    }
    assert State(extracted, plainLines, nextPending, nextLocked) == Settle(codec, before);
    if |nextPending| > MAX_PENDING {
      plainLines := plainLines + [Text.Strip(nextPending)];
      nextPending := "";
      nextLocked := false;
    }
  }

  // ----- The end of the stream -----

  datatype Flushed = Flushed(events: seq<Event>, plain: seq<string>)

  /** `_flush_pending_stream_buffer`. A value that is no event at all turns the whole buffer into plain text. */
  function Flush(codec: Codec, pending: string): Flushed {
    FlushFrom(codec, Text.Strip(pending), Text.Strip(pending))
  }

  function FlushFrom(codec: Codec, whole: string, buffer: string): Flushed
    decreases |buffer|
  {
    var s := Text.StripLeft(buffer);
    if s == "" then Flushed([], [])
    else
      match Decode(codec, s)
      case None => Flushed([], [s])
      case Some(d) =>
        if d.payload.Foreign? then Flushed([], [whole])
        else
          var more := FlushFrom(codec, whole, s[d.length..]);
          Flushed(EventsIn(d.payload) + more.events, more.plain)
  }

  lemma FlushTurn(codec: Codec, whole: string, s: string, from: nat, to: nat)
    requires from <= to <= |s| && s[to..] == Text.StripLeft(s[from..])
    ensures to == |s| ==> FlushFrom(codec, whole, s[from..]) == Flushed([], [])
    ensures to < |s| && Decode(codec, s[to..]).None? ==> FlushFrom(codec, whole, s[from..]) == Flushed([], [s[to..]])
    ensures to < |s| && Decode(codec, s[to..]).Some? ==>
      var d := Decode(codec, s[to..]).value;
      && 0 < d.length && to + d.length <= |s|
      && var more := FlushFrom(codec, whole, s[to + d.length..]);
         FlushFrom(codec, whole, s[from..]) ==
           if d.payload.Foreign? then Flushed([], [whole]) else Flushed(EventsIn(d.payload) + more.events, more.plain)
  {
    hide Text.StripLeft, EventsIn;
    if to < |s| && Decode(codec, s[to..]).Some? {
      var d := Decode(codec, s[to..]).value;
      assert s[to..][d.length..] == s[to + d.length..];
    }
  }

  lemma FlushedEarlier(all: Flushed, parsed: seq<Event>, events: seq<Event>, more: Flushed)
    requires all.events == parsed + (events + more.events) && all.plain == more.plain
    ensures all.events == parsed + events + more.events
  {
  }

  method FlushPending(codec: Codec, pending: string) returns (parsed: seq<Event>, plain: seq<string>)
    ensures Flushed(parsed, plain) == Flush(codec, pending)
  {
    hide Text.Strip, Text.StripLeft, FlushFrom, Decode, EventsIn;
    var normalized := Text.Strip(pending);
    ghost var all := FlushFrom(codec, normalized, normalized);
    FlushNothing(codec, normalized);
    parsed := [];
    if normalized == "" {
      return [], [];
    }
    var index := 0;
    assert normalized[0..] == normalized;
    while index < |normalized|
      invariant index <= |normalized|
      invariant all.events == parsed + FlushFrom(codec, normalized, normalized[index..]).events
      invariant all.plain == FlushFrom(codec, normalized, normalized[index..]).plain
      decreases |normalized| - index
    {
      var next := SkipBlanks(normalized, index);
      FlushTurn(codec, normalized, normalized, index, next);
      if next >= |normalized| {
        return parsed, [];
      }
      match Decode(codec, normalized[next..])
      case None =>
        return parsed, [normalized[next..]];
      case Some(d) =>
        index := next + d.length;
        if d.payload.Foreign? {
          return parsed, [normalized];
        }
        FlushedEarlier(all, parsed, EventsIn(d.payload), FlushFrom(codec, normalized, normalized[index..]));
        parsed := parsed + EventsIn(d.payload);
    }
    assert normalized[index..] == "";
    plain := [];
  }

  lemma FlushNothing(codec: Codec, whole: string)
    ensures FlushFrom(codec, whole, "") == Flushed([], [])
  {
  }
}
