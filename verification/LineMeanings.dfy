/** What becomes of every line that reaches the extractor, whatever the input. */
module LineMeanings {
  import opened Wrappers
  import opened StreamParser
  import opened PendingLines
  import Text

  // ----- Reading lines -----

  predicate HasLineEnd(s: string) {
    exists i :: 0 <= i < |s| && IsLineEnd(s[i])
  }

  lemma LineEndsMean(c: char)
    ensures IsLineEnd(c) <==> c in "\n\r\U{B}\U{C}\U{1C}\U{1D}\U{1E}\U{85}\U{2028}\U{2029}"
  {
    var all := "\n\r\U{B}\U{C}\U{1C}\U{1D}\U{1E}\U{85}\U{2028}\U{2029}";
    assert all[0] == '\n' && all[1] == '\r' && all[2] == '\U{B}' && all[3] == '\U{C}' && all[4] == '\U{1C}' && all[5] == '\U{1D}';
    assert all[6] == '\U{1E}' && all[7] == '\U{85}' && all[8] == '\U{2028}' && all[9] == '\U{2029}';
  }

  lemma {:induction false} NoEndBefore(line: string, rest: string)
    requires !HasLineEnd(line) && (rest == "" || IsLineEnd(rest[0]))
    ensures FirstLineEnd(line + rest) == |line|
  {
    if line == "" {
      assert "" + rest == rest;
    } else {
      assert !IsLineEnd(line[0]);
      assert (line + rest)[1..] == line[1..] + rest;
      forall i | 0 <= i < |line[1..]| ensures !IsLineEnd(line[1..][i]) { assert line[1..][i] == line[i + 1]; }
      NoEndBefore(line[1..], rest);
    }
  }

  /** A text without line ends is one line; "\r\n" ends a line once, any other line end by itself. */
  lemma LinesMean(line: string, c: char, rest: string)
    requires !HasLineEnd(line) && IsLineEnd(c)
    ensures SplitLines("") == [] && (line != "" ==> SplitLines(line) == [line])
    ensures !(c == '\r' && rest != "" && rest[0] == '\n') ==> SplitLines(line + ([c] + rest)) == [line] + SplitLines(rest)
    ensures SplitLines(line + ("\r\n" + rest)) == [line] + SplitLines(rest)
  {
    NoEndBefore(line, "");
    assert line + "" == line;
    OneLineEnd(line, [c] + rest);
    OneLineEnd(line, "\r\n" + rest);
    assert ([c] + rest)[1..] == rest && ("\r\n" + rest)[2..] == rest;
  }

  lemma OneLineEnd(line: string, rest: string)
    requires !HasLineEnd(line) && rest != "" && IsLineEnd(rest[0])
    ensures var width := if rest[0] == '\r' && |rest| > 1 && rest[1] == '\n' then 2 else 1;
      SplitLines(line + rest) == [line] + SplitLines(rest[width..])
  {
    var s := line + rest;
    NoEndBefore(line, rest);
    assert s[..|line|] == line;
    assert s[|line| + 1..] == rest[1..];
    if |rest| > 1 { assert s[|line| + 2..] == rest[2..] && s[|line| + 1] == rest[1]; }
  }

  ghost predicate Within(part: string, whole: string) {
    exists before, after :: whole == before + part + after
  }

  /** A text looks structured if it begins like an object or a list, or names one of the two keys. */
  lemma LooksMean(value: string)
    ensures LooksStructured(value) <==>
      var text := Text.Strip(value);
      text != "" && (text[0] == '{' || text[0] == '[' || Within("\"type\"", text) || Within("\"events\"", text))
  {
    hide Text.Strip;
    ContainsMeans(Text.Strip(value), "\"type\"");
    ContainsMeans(Text.Strip(value), "\"events\"");
  }

  lemma ContainsMeans(s: string, t: string)
    ensures Contains(s, t) <==> Within(t, s)
  {
    if i :| 0 <= i <= |s| && StartsWith(s[i..], t) {
      assert s == s[..i] + t + s[i + |t|..];
    }
    if before, after :| s == before + t + after {
      assert s[|before|..][..|t|] == t;
      assert StartsWith(s[|before|..], t);
    }
  }

  lemma EventsMean(es: seq<Event>, e: Event, ps: seq<Payload>, p: Payload)
    ensures EventsIn(Batch(es)) == es && EventsIn(Single(e)) == [e] && EventsIn(Foreign) == []
    ensures AllEventsIn([]) == [] && AllEventsIn(ps + [p]) == AllEventsIn(ps) + EventsIn(p)
  {
    assert (ps + [p])[..|ps|] == ps;
  }

  /** Only text that is one value and nothing else loads. */
  lemma LoadsMean(codec: Codec, s: string)
    ensures Loads(codec, s) == match codec(s) case Some(d) => if |s| > 0 && d.length == |s| then Some(d.payload) else None case None => None
  {
  }

  // ----- Every line -----

  predicate Speaks(raw: string) {
    Text.Strip(raw) != "" && !(|Text.Strip(raw)| >= 3 && Text.Strip(raw)[..3] == "```")
  }

  predicate IsPlain(raw: string, locked: bool) {
    Speaks(raw) && !locked && !LooksStructured(raw)
  }

  /** The events of a line that is one value. */
  function Given(codec: Codec, raw: string): seq<Event> {
    match Loads(codec, Text.Strip(raw)) case Some(p) => EventsIn(p) case None => []
  }

  /** The plain lines, each under the lock it meets. */
  function PlainLines(codec: Codec, st: State, lines: seq<string>): seq<string> {
    if lines == [] then []
    else
      var init, last := lines[..|lines| - 1], lines[|lines| - 1];
      PlainLines(codec, st, init) + if IsPlain(last, LineSteps(codec, st, init).locked) then [Text.Strip(last)] else []
  }

  function GivenEvents(codec: Codec, st: State, lines: seq<string>): seq<Event> {
    if lines == [] then []
    else
      var init, last := lines[..|lines| - 1], lines[|lines| - 1];
      GivenEvents(codec, st, init) + if Speaks(last) && !IsPlain(last, LineSteps(codec, st, init).locked) then Given(codec, last) else []
  }

  lemma LooksOfStripped(s: string)
    ensures LooksStructured(Text.Strip(s)) <==> LooksStructured(s)
  {
    Text.StripTrims(s);
    Text.StripTrimmed(Text.Strip(s));
    hide Text.Strip, Contains;
  }

  /** One line: it is kept as plain text, or gives its events, or is held back; and it sets the lock for the next. */
  lemma LineMeans(codec: Codec, st: State, raw: string)
    ensures LineStep(codec, st, raw) ==
      if !Speaks(raw) then st
      else if IsPlain(raw, st.locked) then State(st.events, st.plain + [Text.Strip(raw)], st.pending, false)
      else if Given(codec, raw) != [] then State(st.events + Given(codec, raw), st.plain, st.pending, false)
      else State(st.events, st.plain, if st.pending == "" then Text.Strip(raw) else st.pending + "\n" + Text.Strip(raw), true)
  {
    LooksOfStripped(raw);
    hide Text.Strip, LooksStructured, Loads;
    assert |"```"| == 3;
  }

  lemma {:induction false} LinesGive(codec: Codec, st: State, lines: seq<string>)
    ensures var end := LineSteps(codec, st, lines);
      && end.plain == st.plain + PlainLines(codec, st, lines)
      && end.events == st.events + GivenEvents(codec, st, lines)
      && end.pending == Behind(st.pending, HeldBack(codec, st, lines))
  {
    hide LineStep, Text.Strip, IsPlain, Given, Speaks, LooksStructured, HeldBack, Behind;
    PendingIsBehind(codec, st, lines);
    if lines != [] {
      var init, last := lines[..|lines| - 1], lines[|lines| - 1];
      LinesGive(codec, st, init);
      LineStepsStep(codec, st, lines);
      LineMeans(codec, LineSteps(codec, st, init), last);
      PlainSpeaks(last, LineSteps(codec, st, init).locked);
    }
  }

  lemma PlainSpeaks(raw: string, locked: bool)
    ensures IsPlain(raw, locked) ==> Speaks(raw)
  {
    hide Text.Strip, LooksStructured;
  }

  /** Nothing a line says is lost: plain lines are in the plain text, the others give events or wait to be decoded. */
  lemma NoLineIsLost(codec: Codec, st: State, lines: seq<string>, i: nat)
    requires i < |lines| && Speaks(lines[i])
    ensures var met, end := LineSteps(codec, st, lines[..i]), LineSteps(codec, st, lines);
      if IsPlain(lines[i], met.locked) then Text.Strip(lines[i]) in end.plain
      else if Given(codec, lines[i]) != [] then forall e :: e in Given(codec, lines[i]) ==> e in end.events
      else Text.Strip(lines[i]) in HeldBack(codec, st, lines) && end.pending == Behind(st.pending, HeldBack(codec, st, lines))
  {
    hide LineStep, LineSteps, Text.Strip, IsPlain, Given, Speaks, LooksStructured, HeldBack, Behind, PlainLines, GivenEvents;
    LinesGive(codec, st, lines);
    LineCounts(codec, st, lines, i);
  }

  lemma {:induction false} LineCounts(codec: Codec, st: State, lines: seq<string>, i: nat)
    requires i < |lines| && Speaks(lines[i])
    ensures var locked := LineSteps(codec, st, lines[..i]).locked;
      if IsPlain(lines[i], locked) then Text.Strip(lines[i]) in PlainLines(codec, st, lines)
      else if Given(codec, lines[i]) != [] then forall e :: e in Given(codec, lines[i]) ==> e in GivenEvents(codec, st, lines)
      else Text.Strip(lines[i]) in HeldBack(codec, st, lines)
    decreases |lines|
  {
    hide LineSteps, Text.Strip, IsPlain, Given, Speaks, LooksStructured, Passes;
    var init := lines[..|lines| - 1];
    if i < |init| {
      assert init[i] == lines[i] && init[..i] == lines[..i];
      LineCounts(codec, st, init, i);
    } else {
      assert lines[..i] == init;
      PassesIf(codec, lines[i], LineSteps(codec, st, init).locked);
    }
  }

  lemma PassesIf(codec: Codec, raw: string, locked: bool)
    ensures Speaks(raw) ==> (Passes(codec, raw, locked) <==> IsPlain(raw, locked) || Given(codec, raw) != [])
  {
    LooksOfStripped(raw);
    hide Text.Strip, LooksStructured, Loads;
    assert |"```"| == 3;
  }

  // ----- Behind the lines -----

  /** The text held back is decoded if it must be structured, else it is plain text. What does not decode waits on. */
  lemma SettleMeans(codec: Codec, st: State)
    ensures var text, r := Text.Strip(st.pending), Settle(codec, st);
      var structured, values := st.locked || LooksStructured(st.pending), DecodeStream(codec, st.pending);
      && (text == "" ==> r == st)
      && (text != "" && !structured ==> r == State(st.events, st.plain + [text], "", false))
      && (text != "" && structured ==>
            && r.events == st.events + AllEventsIn(values.payloads) && r.plain == st.plain && r.pending == values.rest
            && (Text.Strip(values.rest) != "" ==> r.locked)
            && (Text.Strip(values.rest) == "" ==> (r.locked <==> st.locked && AllEventsIn(values.payloads) == [])))
  {
    hide Text.Strip, LooksStructured, DecodeStream, AllEventsIn;
  }

  /** Decoding: blanks in front are skipped, and values are taken off while the decoder finds one that fits. */
  lemma StreamMeans(codec: Codec, blanks: string, s: string)
    requires Text.AllSpaces(blanks) && (s == "" || !Text.IsSpace(s[0]))
    ensures var r := DecodeStream(codec, blanks + s);
      if s != "" && codec(s).Some? && 0 < codec(s).value.length <= |s| then
        var more := DecodeStream(codec, s[codec(s).value.length..]);
        r == Values([codec(s).value.payload] + more.payloads, more.rest)
      else r == Values([], s)
  {
    SkipsBlanks(blanks, s);
  }

  lemma {:induction false} SkipsBlanks(blanks: string, s: string)
    requires Text.AllSpaces(blanks) && (s == "" || !Text.IsSpace(s[0]))
    ensures Text.StripLeft(blanks + s) == s
  {
    if blanks == "" {
      assert blanks + s == s;
    } else {
      assert (blanks + s)[0] == blanks[0] && (blanks + s)[1..] == blanks[1..] + s;
      SkipsBlanks(blanks[1..], s);
    }
  }

  /** The first value that is no event. */
  ghost predicate FirstForeign(ps: seq<Payload>, i: nat) {
    i < |ps| && ps[i] == Foreign && Foreign !in ps[..i]
  }

  /** At the end of the stream the leftover text is decoded; what does not decode, or all of it if some value is no event, is plain text. */
  lemma FlushMeans(codec: Codec, pending: string)
    ensures var values := DecodeStream(codec, Text.Strip(pending));
      Foreign !in values.payloads ==>
        Flush(codec, pending) == Flushed(AllEventsIn(values.payloads), if values.rest == "" then [] else [values.rest])
    ensures var values := DecodeStream(codec, Text.Strip(pending));
      forall i: nat :: FirstForeign(values.payloads, i) ==>
        Flush(codec, pending) == Flushed(AllEventsIn(values.payloads[..i]), [Text.Strip(pending)])
  {
    FlushFromMeans(codec, Text.Strip(pending), Text.Strip(pending));
  }

  lemma {:induction false} FlushFromMeans(codec: Codec, whole: string, buffer: string)
    ensures var values := DecodeStream(codec, buffer);
      Foreign !in values.payloads ==>
        FlushFrom(codec, whole, buffer) == Flushed(AllEventsIn(values.payloads), if values.rest == "" then [] else [values.rest])
    ensures var values := DecodeStream(codec, buffer);
      forall i: nat :: FirstForeign(values.payloads, i) ==>
        FlushFrom(codec, whole, buffer) == Flushed(AllEventsIn(values.payloads[..i]), [whole])
    decreases |buffer|
  {
    hide Text.StripLeft, AllEventsIn, EventsIn;
    assert AllEventsIn([]) == [] by { EventsMean([], Event("", ""), [], Foreign); }
    var s := Text.StripLeft(buffer);
    if s != "" && Decode(codec, s).Some? {
      var d := Decode(codec, s).value;
      var more := DecodeStream(codec, s[d.length..]);
      var ps := [d.payload] + more.payloads;
      if !d.payload.Foreign? {
        FlushFromMeans(codec, whole, s[d.length..]);
        FirstEvents(d.payload, more.payloads);
        forall i: nat | FirstForeign(ps, i)
          ensures FlushFrom(codec, whole, buffer) == Flushed(AllEventsIn(ps[..i]), [whole])
        {
          assert i > 0 && ps[..i] == [d.payload] + more.payloads[..i - 1];
          assert FirstForeign(more.payloads, i - 1);
          FirstEvents(d.payload, more.payloads[..i - 1]);
        }
      } else {
        forall i: nat | FirstForeign(ps, i) ensures i == 0 { FirstIsFirst(ps, i); }
      }
    }
  }

  lemma FirstIsFirst(ps: seq<Payload>, i: nat)
    requires FirstForeign(ps, i)
    ensures ps[0] == Foreign ==> i == 0
  {
    var before := ps[..i];
    if before != [] { assert before[0] == ps[0]; }
  }

  lemma {:induction false} FirstEvents(p: Payload, ps: seq<Payload>)
    ensures AllEventsIn([p] + ps) == EventsIn(p) + AllEventsIn(ps)
  {
    hide EventsIn, AllEventsIn;
    assert AllEventsIn([]) == [] by { EventsMean([], Event("", ""), [], p); }
    if ps == [] {
      EventsMean([], Event("", ""), [], p);
      assert [] + [p] == [p] + ps;
    } else {
      var init, last := ps[..|ps| - 1], ps[|ps| - 1];
      FirstEvents(p, init);
      EventsMean([], Event("", ""), init, last);
      EventsMean([], Event("", ""), [p] + init, last);
      assert init + [last] == ps && ([p] + init) + [last] == [p] + ps;
    }
  }

  /** No more than 16384 characters wait; more than that becomes plain text and frees the lock. */
  lemma OverflowMeans(st: State)
    ensures |st.pending| <= 16384 ==> Bounded(st) == st
    ensures |st.pending| > 16384 ==> Bounded(st) == State(st.events, st.plain + [Text.Strip(st.pending)], "", false)
  {
  }

  // ----- Prose -----

  /** `texts` are the lines that say something, without outer blanks and in order; the line at `partial` may be a fence. */
  ghost predicate SaidLines(lines: seq<string>, partial: int, texts: seq<string>, at: seq<nat>) {
    && |at| == |texts|
    && (forall i: nat :: i in at <==> i < |lines| && (Speaks(lines[i]) || (i == partial && Text.Strip(lines[i]) != "")))
    && (forall x, y :: 0 <= x < y < |at| ==> at[x] < at[y])
    && forall x :: 0 <= x < |at| ==> at[x] < |lines| && texts[x] == Text.Strip(lines[at[x]])
  }

  lemma {:induction false} ProseLines(codec: Codec, st: State, lines: seq<string>) returns (texts: seq<string>, at: seq<nat>)
    requires !st.locked && forall i :: 0 <= i < |lines| ==> !LooksStructured(lines[i])
    ensures LineSteps(codec, st, lines) == State(st.events, st.plain + texts, st.pending, false)
    ensures SaidLines(lines, -1, texts, at)
  {
    hide LineStep, Text.Strip, Speaks, LooksStructured, Given, SaidLines;
    if lines == [] {
      texts, at := [], [];
      NothingSaid();
    } else {
      var init, last := lines[..|lines| - 1], lines[|lines| - 1];
      assert forall i :: 0 <= i < |init| ==> init[i] == lines[i];
      texts, at := ProseLines(codec, st, init);
      LineStepsStep(codec, st, lines);
      LineMeans(codec, LineSteps(codec, st, init), last);
      SaidMore(init, texts, at, last, -1);
      assert lines == init + [last];
      if Speaks(last) {
        assert st.plain + (texts + [Text.Strip(last)]) == (st.plain + texts) + [Text.Strip(last)];
        texts, at := texts + [Text.Strip(last)], at + [|init|];
      }
    }
  }

  lemma NothingSaid()
    ensures SaidLines([], -1, [], [])
  {
  }

  lemma SaidMore(lines: seq<string>, texts: seq<string>, at: seq<nat>, last: string, partial: int)
    requires SaidLines(lines, -1, texts, at) && (partial == -1 || partial == |lines|)
    ensures var more := lines + [last];
      if Speaks(last) || (partial == |lines| && Text.Strip(last) != "")
      then SaidLines(more, partial, texts + [Text.Strip(last)], at + [|lines|]) else SaidLines(more, partial, texts, at)
  {
    hide Speaks, Text.Strip;
    var more := lines + [last];
    forall x | 0 <= x < |at| ensures at[x] < |lines| && more[at[x]] == lines[at[x]] { assert at[x] in at; }
    forall i: nat ensures i in at <==> i < |lines| && Speaks(more[i]) {
      assert i in at <==> i < |lines| && Speaks(lines[i]);
      assert i < |lines| ==> more[i] == lines[i];
    }
  }

  lemma SplitSomething(s: string)
    requires s != ""
    ensures SplitLines(s) != []
  {
  }

  /** Only a line feed or a carriage return at the very end completes the last line. */
  lemma EndsLineMeans(s: string)
    requires s != ""
    ensures EndsLine(s) <==> exists line: string :: s == line + "\n" || s == line + "\r"
  {
    assert s == s[..|s| - 1] + [s[|s| - 1]];
  }

  /** What a call leaves in the buffer of prose: an unfinished line of blanks, if it ends with one. */
  function BlankTail(chunk: string): string
    requires chunk != ""
  {
    SplitSomething(chunk);
    var lines := SplitLines(chunk);
    var last := lines[|lines| - 1];
    if !EndsLine(chunk) && Text.Strip(last) == "" then last else ""
  }

  /**
    Prose is passed on: with an empty buffer, a free lock and no line that looks structured, the plain output is exactly
    the lines that say something. Only an unfinished line of blanks remains, unless it is too long; then it is said as "".
   */
  lemma ProsePassesThrough(codec: Codec, chunk: string) returns (texts: seq<string>, at: seq<nat>)
    requires chunk != "" && forall i :: 0 <= i < |SplitLines(chunk)| ==> !LooksStructured(SplitLines(chunk)[i])
    ensures Extract(codec, chunk, "", false) ==
      if |BlankTail(chunk)| <= 16384 then State([], texts, BlankTail(chunk), false) else State([], texts + [""], "", false)
    ensures SaidLines(SplitLines(chunk), if EndsLine(chunk) then -1 else |SplitLines(chunk)| - 1, texts, at)
  {
    hide SplitLines, LooksStructured, LineSteps, Settle, Bounded, Text.Strip, Extract, SaidLines, Speaks;
    var lines := SplitLines(chunk);
    SplitSomething(chunk);
    assert "" + chunk == chunk;
    if EndsLine(chunk) {
      texts, at := ProseLines(codec, State([], [], "", false), lines);
      WholeLinesKeepOrder(codec, chunk, "", false);
      StripNothing();
      SettleMeans(codec, State([], texts, "", false));
      OverflowMeans(State([], texts, "", false));
      assert [] + texts == texts;
    } else {
      var init, last := lines[..|lines| - 1], lines[|lines| - 1];
      var said, places := ProseLines(codec, State([], [], last, false), init);
      PartialCall(codec, chunk, "", false);
      assert [] + said == said && lines == init + [last];
      SaidMore(init, said, places, last, |init|);
      SettleMeans(codec, State([], said, last, false));
      SpeakingLine(last);
      if Text.Strip(last) == "" {
        texts, at := said, places;
        OverflowMeans(State([], texts, last, false));
      } else {
        texts, at := said + [Text.Strip(last)], places + [|init|];
        OverflowMeans(State([], texts, "", false));
      }
    }
  }

  lemma StripNothing()
    ensures Text.Strip("") == ""
  {
  }

  lemma SpeakingLine(raw: string)
    ensures Speaks(raw) ==> Text.Strip(raw) != ""
  {
    hide Text.Strip;
  }
}
