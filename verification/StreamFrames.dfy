/**
  How the stream is cut into chunks makes no difference: feeding newline-terminated frames to the extractor in any
  pieces gives the events of the frames, in order, and nothing else.
 */
module StreamFrames {
  import opened StreamParser
  import opened Wrappers
  import BracketScanner
  import Text

  ghost predicate OneLine(s: string) {
    forall c :: c in s ==> !IsLineEnd(c)
  }

  /**
    An event as the planner writes it: one trimmed line holding one object or list that decodes as a whole, to at
    least one event, and of which no proper prefix decodes.
   */
  ghost predicate Frame(codec: Codec, f: string) {
    && f != "" && (f[0] == '{' || f[0] == '[') && Text.Trimmed(f) && OneLine(f) && |f| <= MAX_PENDING
    && Decode(codec, f).Some? && Decode(codec, f).value.length == |f| && EventsIn(Decode(codec, f).value.payload) != []
    && forall k :: 0 < k < |f| ==> Decode(codec, f[..k]).None?
  }

  ghost predicate Frames(codec: Codec, fs: seq<string>) {
    forall i :: 0 <= i < |fs| ==> Frame(codec, fs[i])
  }

  ghost function FrameEvents(codec: Codec, f: string): seq<Event>
    requires Frame(codec, f)
  {
    EventsIn(Decode(codec, f).value.payload)
  }

  ghost function EventsOf(codec: Codec, fs: seq<string>): seq<Event>
    requires Frames(codec, fs)
  {
    if fs == [] then [] else EventsOf(codec, fs[..|fs| - 1]) + FrameEvents(codec, fs[|fs| - 1])
  }

  /** The frames, each followed by a newline. */
  function Stream(fs: seq<string>): string {
    if fs == [] then "" else fs[0] + "\n" + Stream(fs[1..])
  }

  /** Text received so far of a frame: nothing, or a proper prefix. */
  ghost predicate Begun(codec: Codec, q: string) {
    q == "" || exists f :: Frame(codec, f) && |q| < |f| && q <= f
  }

  // ----- Lines -----

  lemma {:induction false} FirstLineEndAfter(a: string, c: char, rest: string)
    requires OneLine(a) && IsLineEnd(c)
    ensures FirstLineEnd(a + [c] + rest) == |a|
  {
    var s := a + [c] + rest;
    if a == "" {
      assert s[0] == c;
    } else {
      assert s[0] == a[0] && a[0] in a;
      assert s[1..] == a[1..] + [c] + rest;
      FirstLineEndAfter(a[1..], c, rest);
    }
  }

  lemma {:induction false} NoLineEnd(a: string)
    requires OneLine(a)
    ensures FirstLineEnd(a) == |a|
  {
    if a != "" {
      assert a[0] in a;
      NoLineEnd(a[1..]);
    }
  }

  lemma SplitFirst(a: string, rest: string)
    requires OneLine(a)
    ensures SplitLines(a + "\n" + rest) == [a] + SplitLines(rest)
  {
    FirstLineEndAfter(a, '\n', rest);
    var s := a + "\n" + rest;
    assert s[..|a|] == a && s[|a|] == '\n' && s[|a| + 1..] == rest;
  }

  lemma {:induction false} SplitStream(codec: Codec, fs: seq<string>, q: string)
    requires Frames(codec, fs) && OneLine(q)
    ensures SplitLines(Stream(fs) + q) == fs + if q == "" then [] else [q]
  {
    hide SplitLines;
    if fs == [] {
      assert Stream(fs) + q == q;
      SplitLast(q);
    } else {
      SplitStream(codec, fs[1..], q);
      assert Frame(codec, fs[0]);
      assert Stream(fs) + q == fs[0] + "\n" + (Stream(fs[1..]) + q);
      SplitFirst(fs[0], Stream(fs[1..]) + q);
    }
  }

  lemma SplitLast(q: string)
    requires OneLine(q)
    ensures SplitLines(q) == if q == "" then [] else [q]
  {
    NoLineEnd(q);
  }

  lemma {:induction false} StreamEnd(fs: seq<string>)
    ensures fs == [] || (Stream(fs) != "" && Stream(fs)[|Stream(fs)| - 1] == '\n')
  {
    if fs != [] { StreamEnd(fs[1..]); }
  }

  // ----- One frame -----

  lemma FrameText(codec: Codec, f: string)
    requires Frame(codec, f)
    ensures Text.Strip(f) == f && LooksStructured(f) && !StartsWith(f, "```")
  {
    Text.StripTrimmed(f);
  }

  lemma FrameLine(codec: Codec, st: State, f: string)
    requires Frame(codec, f)
    ensures LineStep(codec, st, f) == st.(events := st.events + FrameEvents(codec, f), locked := false)
  {
    FrameText(codec, f);
  }

  lemma {:induction false} FrameLines(codec: Codec, st: State, fs: seq<string>)
    requires Frames(codec, fs)
    ensures LineSteps(codec, st, fs) == st.(events := st.events + EventsOf(codec, fs), locked := st.locked && fs == [])
  {
    hide Frame, LineStep;
    if fs != [] {
      FrameLines(codec, st, fs[..|fs| - 1]);
      FrameLine(codec, LineSteps(codec, st, fs[..|fs| - 1]), fs[|fs| - 1]);
    }
  }

  lemma WholeFrame(codec: Codec, f: string)
    requires Frame(codec, f)
    ensures DecodeStream(codec, f) == Values([Decode(codec, f).value.payload], "")
    ensures AllEventsIn([Decode(codec, f).value.payload]) == FrameEvents(codec, f)
  {
    hide OneLine;
    Text.StripKeepsFirst(f);
    assert f[|f|..] == "";
    var p := Decode(codec, f).value.payload;
    assert [p][..0] == [];
  }

  /** A proper prefix is recognised as structured, does not decode, and stays as it is. */
  lemma FramePrefix(codec: Codec, q: string)
    requires Begun(codec, q) && q != ""
    ensures Text.Strip(q) != "" && LooksStructured(q) && DecodeStream(codec, q) == Values([], q)
    ensures |q| <= MAX_PENDING && OneLine(q)
  {
    var f :| Frame(codec, f) && |q| < |f| && q <= f;
    assert q == f[..|q|] && q[0] == f[0];
    Text.StripKeepsFirst(q);
    forall c | c in q ensures !IsLineEnd(c) { assert c in f; }
  }

  // ----- One call -----

  function LeadText(lead: bool): string {
    if lead then "\n" else ""
  }

  lemma {:induction false} BlankLineFirst(codec: Codec, st: State, lines: seq<string>)
    ensures LineSteps(codec, st, [""] + lines) == LineSteps(codec, st, lines)
  {
    if lines == [] {
      assert [""] + lines == [""] && [""][..0] == [];
    } else {
      var all := [""] + lines;
      BlankLineFirst(codec, st, lines[..|lines| - 1]);
      assert all[..|all| - 1] == [""] + lines[..|lines| - 1];
    }
  }

  /** The complete lines of a call: a blank one when a newline was still owed, and the frames. */
  lemma CallLines(codec: Codec, st: State, lead: bool, fs: seq<string>, q: string)
    requires Frames(codec, fs) && OneLine(q)
    ensures var lines := SplitLines(LeadText(lead) + Stream(fs) + q);
      && (q == "" ==> LineSteps(codec, st, lines) == st.(events := st.events + EventsOf(codec, fs), locked := st.locked && fs == []))
      && (q != "" ==> lines != [] && lines[|lines| - 1] == q)
      && (q != "" ==>
            LineSteps(codec, st, lines[..|lines| - 1]) == st.(events := st.events + EventsOf(codec, fs), locked := st.locked && fs == []))
  {
    hide SplitLines, LineSteps, Frame, OneLine, LineStep;
    var lines := SplitLines(LeadText(lead) + Stream(fs) + q);
    SplitStream(codec, fs, q);
    FrameLines(codec, st, fs);
    if lead {
      SplitBlank(Stream(fs) + q);
      assert LeadText(lead) + Stream(fs) + q == "\n" + (Stream(fs) + q);
      BlankLineFirst(codec, st, fs);
      assert q != "" ==> lines == ([""] + fs) + [q] && lines[..|lines| - 1] == [""] + fs;
      assert q == "" ==> lines == [""] + fs;
    } else {
      assert LeadText(lead) + Stream(fs) + q == Stream(fs) + q;
      assert q != "" ==> lines[..|lines| - 1] == fs;
      assert q == "" ==> lines == fs;
    }
  }

  lemma SplitBlank(rest: string)
    ensures SplitLines("\n" + rest) == [""] + SplitLines(rest)
  {
    SplitFirst("", rest);
    assert "" + "\n" + rest == "\n" + rest;
  }

  lemma CombinedEnd(codec: Codec, lead: bool, fs: seq<string>, q: string)
    requires OneLine(q)
    ensures var combined := LeadText(lead) + Stream(fs) + q;
      combined != "" ==> (EndsLine(combined) <==> q == "")
  {
    StreamEnd(fs);
    var combined := LeadText(lead) + Stream(fs) + q;
    if combined != "" {
      if q != "" {
        assert combined[|combined| - 1] == q[|q| - 1] && q[|q| - 1] in q;
      } else if fs != [] {
        assert combined[|combined| - 1] == Stream(fs)[|Stream(fs)| - 1];
      }
    }
  }

  /** After a call that ended between lines. */
  lemma CallAtLineEnd(codec: Codec, chunk: string, pending: string, locked: bool, lead: bool, fs: seq<string>)
    requires Frames(codec, fs) && pending + chunk == LeadText(lead) + Stream(fs) && (locked ==> fs != [])
    ensures Extract(codec, chunk, pending, locked) == State(EventsOf(codec, fs), [], "", false)
  {
    hide SplitLines, LineSteps, Frame, LineStep, Stream, LooksStructured, DecodeStream;
    var combined := pending + chunk;
    assert combined == LeadText(lead) + Stream(fs) + "";
    CallLines(codec, State([], [], "", locked), lead, fs, "");
    CombinedEnd(codec, lead, fs, "");
    NonemptyStream(fs);
    assert [] + EventsOf(codec, fs) == EventsOf(codec, fs);
  }

  lemma NonemptyStream(fs: seq<string>)
    ensures Stream(fs) == "" <==> fs == []
  {
  }

  /** After a call that ended inside or right behind a frame. */
  lemma CallInFrame(codec: Codec, chunk: string, pending: string, locked: bool, lead: bool, fs: seq<string>, q: string)
    requires Frames(codec, fs) && pending + chunk == LeadText(lead) + Stream(fs) + q
    requires q != "" && OneLine(q) && LooksStructured(q)
    ensures Extract(codec, chunk, pending, locked) == Bounded(Settle(codec, State(EventsOf(codec, fs), [], q, fs == [])))
  {
    hide SplitLines, LineSteps, Frame, OneLine, LineStep, Stream, LooksStructured, Settle, Bounded;
    CallLines(codec, State([], [], q, true), lead, fs, q);
    CombinedEnd(codec, lead, fs, q);
    assert [] + EventsOf(codec, fs) == EventsOf(codec, fs);
  }

  lemma CallAtFrameEnd(codec: Codec, chunk: string, pending: string, locked: bool, lead: bool, fs: seq<string>, f: string)
    requires Frames(codec, fs) && pending + chunk == LeadText(lead) + Stream(fs) + f && Frame(codec, f)
    ensures Extract(codec, chunk, pending, locked) == State(EventsOf(codec, fs) + FrameEvents(codec, f), [], "", false)
  {
    hide Extract, DecodeStream, LooksStructured, Stream, AllEventsIn;
    FrameText(codec, f);
    CallInFrame(codec, chunk, pending, locked, lead, fs, f);
    WholeFrame(codec, f);
  }

  lemma CallInsideFrame(codec: Codec, chunk: string, pending: string, locked: bool, lead: bool, fs: seq<string>, q: string)
    requires Frames(codec, fs) && pending + chunk == LeadText(lead) + Stream(fs) + q && Begun(codec, q) && q != ""
    ensures Extract(codec, chunk, pending, locked) == State(EventsOf(codec, fs), [], q, true)
  {
    hide Extract, DecodeStream, LooksStructured, Stream, Frame, Begun;
    FramePrefix(codec, q);
    CallInFrame(codec, chunk, pending, locked, lead, fs, q);
    assert AllEventsIn([]) == [];
  }

  // ----- Any number of calls -----

  /** The bridge's loop over chunks, with everything it has got so far. */
  function Feed(codec: Codec, st: State, chunks: seq<string>): State
    decreases |chunks|
  {
    if chunks == [] then st
    else Feed(codec, Fed(codec, st, chunks[0]), chunks[1..])
  }

  function Fed(codec: Codec, st: State, chunk: string): State {
    var r := Extract(codec, chunk, st.pending, st.locked);
    State(st.events + r.events, st.plain + r.plain, r.pending, r.locked)
  }

  function Joined(chunks: seq<string>): string {
    if chunks == [] then "" else chunks[0] + Joined(chunks[1..])
  }

  /**
    Between calls: `fs` are the frames not reported yet, `ahead` the text still to come, and `lead` says that the last
    reported frame's newline is still to come. Pending text is what has arrived of the next frame.
   */
  ghost predicate Resting(codec: Codec, st: State, lead: bool, fs: seq<string>, ahead: string) {
    && Frames(codec, fs)
    && st.plain == []
    && (st.locked <==> st.pending != "")
    && (lead ==> st.pending == "")
    && (st.pending != "" ==> fs != [] && |st.pending| < |fs[0]| && st.pending <= fs[0])
    && st.pending + ahead == LeadText(lead) + Stream(fs)
  }

  /** Where a prefix of the stream ends: after `j` frames and their newlines, then `q`. */
  ghost predicate CutAt(fs: seq<string>, c: string, ahead: string, j: nat, q: string) {
    && j <= |fs|
    && c == Stream(fs[..j]) + q
    && (q == "" ==> ahead == Stream(fs[j..]))
    && (q != "" ==> j < |fs| && q <= fs[j] && ahead == fs[j][|q|..] + "\n" + Stream(fs[j + 1..]))
  }

  lemma {:induction false} CutStream(fs: seq<string>, c: string, ahead: string) returns (j: nat, q: string)
    requires c + ahead == Stream(fs)
    ensures CutAt(fs, c, ahead, j, q)
  {
    j, q := 0, c;
    if fs == [] || c == "" {
      assert fs[0..] == fs && fs[..0] == [];
    } else {
      var f, rest := fs[0], Stream(fs[1..]);
      var whole := f + "\n" + rest;
      assert whole[..|c|] == c && whole[|c|..] == ahead;
      if |c| <= |f| {
        assert c == f[..|c|] && ahead == f[|c|..] + "\n" + rest;
        assert fs[..0] == [];
      } else {
        var c' := c[|f| + 1..];
        assert c == f + "\n" + c';
        assert whole[|f| + 1..] == rest;
        assert c' + ahead == rest;
        var j', q' := CutStream(fs[1..], c', ahead);
        j, q := j' + 1, q';
        CutLater(fs, c, c', ahead, j', q');
      }
    }
  }

  lemma CutLater(fs: seq<string>, c: string, c': string, ahead: string, j: nat, q: string)
    requires fs != [] && CutAt(fs[1..], c', ahead, j, q) && c == fs[0] + "\n" + c'
    ensures CutAt(fs, c, ahead, j + 1, q)
  {
    assert fs[..j + 1][0] == fs[0] && fs[..j + 1][1..] == fs[1..][..j];
    assert fs[1..][j..] == fs[j + 1..];
    assert q != "" ==> fs[1..][j] == fs[j + 1] && fs[1..][j + 1..] == fs[j + 2..];
  }

  lemma EventsStep(codec: Codec, fs: seq<string>, j: nat)
    requires Frames(codec, fs) && j < |fs|
    ensures Frames(codec, fs[..j]) && Frames(codec, fs[..j + 1])
    ensures EventsOf(codec, fs[..j + 1]) == EventsOf(codec, fs[..j]) + FrameEvents(codec, fs[j])
  {
    assert fs[..j + 1][..j] == fs[..j];
  }

  lemma FramesPart(codec: Codec, fs: seq<string>, j: nat)
    requires Frames(codec, fs) && j <= |fs|
    ensures Frames(codec, fs[..j]) && Frames(codec, fs[j..])
  {
  }

  lemma NoEvents(codec: Codec, fs: seq<string>)
    requires Frames(codec, fs) && fs == []
    ensures EventsOf(codec, fs) == []
  {
  }

  lemma {:induction false} EventsConcat(codec: Codec, fs: seq<string>, j: nat, k: nat)
    requires Frames(codec, fs) && j <= k <= |fs|
    ensures Frames(codec, fs[..j]) && Frames(codec, fs[..k]) && Frames(codec, fs[j..][..k - j])
    ensures EventsOf(codec, fs[..k]) == EventsOf(codec, fs[..j]) + EventsOf(codec, fs[j..][..k - j])
  {
    hide Frame, Frames, EventsOf;
    FramesPart(codec, fs, j);
    FramesPart(codec, fs, k);
    FramesPart(codec, fs[j..], k - j);
    if j == k {
      NoEvents(codec, fs[j..][..k - j]);
    } else {
      EventsConcat(codec, fs, j, k - 1);
      EventsStep(codec, fs, k - 1);
      EventsStep(codec, fs[j..], k - 1 - j);
      assert fs[j..][k - 1 - j] == fs[k - 1];
    }
  }

  /** One call keeps the picture, and reports the frames it moves past. */
  lemma FeedOne(codec: Codec, st: State, lead: bool, fs: seq<string>, chunk: string, ahead: string) returns (lead': bool, done: nat)
    requires Resting(codec, st, lead, fs, chunk + ahead)
    ensures done <= |fs| && Frames(codec, fs[..done])
    ensures Resting(codec, Fed(codec, st, chunk), lead', fs[done..], ahead)
    ensures Fed(codec, st, chunk).events == st.events + EventsOf(codec, fs[..done])
    ensures lead' ==> done > 0 || lead
  {
    hide Extract, Frame, Frames, EventsOf, Stream, Resting, Fed;
    if st.pending + chunk == "" {
      NothingFed(codec, st, lead, fs, chunk, ahead);
      return lead, 0;
    }
    var body := WithoutLead(codec, st, lead, fs, chunk, ahead);
    var j, q := CutStream(fs, body, ahead);
    FramesOf(codec, st, lead, fs, chunk + ahead);
    FramesPart(codec, fs, j);
    assert st.pending + chunk == LeadText(lead) + Stream(fs[..j]) + q;
    lead', done := AfterCut(codec, st, lead, fs, chunk, ahead, j, q);
  }

  /** The part of a call's text that belongs to frames not reported yet. */
  lemma WithoutLead(codec: Codec, st: State, lead: bool, fs: seq<string>, chunk: string, ahead: string) returns (body: string)
    requires Resting(codec, st, lead, fs, chunk + ahead) && st.pending + chunk != ""
    ensures st.pending + chunk == LeadText(lead) + body && body + ahead == Stream(fs)
  {
    hide Frames, Stream;
    var c := st.pending + chunk;
    assert c + ahead == st.pending + (chunk + ahead) == LeadText(lead) + Stream(fs);
    body := if lead then c[1..] else c;
    if lead {
      assert c[0] == (c + ahead)[0] == '\n';
      assert body + ahead == (c + ahead)[1..];
    }
  }

  lemma NothingFed(codec: Codec, st: State, lead: bool, fs: seq<string>, chunk: string, ahead: string)
    requires Resting(codec, st, lead, fs, chunk + ahead) && st.pending + chunk == ""
    ensures Fed(codec, st, chunk) == st
    ensures Resting(codec, st, lead, fs[0..], ahead)
    ensures Frames(codec, fs[..0]) && EventsOf(codec, fs[..0]) == []
  {
    hide Resting, Frame, SplitLines, LineSteps, Settle, Bounded;
    assert st.pending == "" && chunk == "";
    assert fs[0..] == fs && chunk + ahead == ahead;
    SameAfterNothing(codec, st, lead, fs, chunk, ahead);
  }

  lemma SameAfterNothing(codec: Codec, st: State, lead: bool, fs: seq<string>, chunk: string, ahead: string)
    requires Resting(codec, st, lead, fs, chunk + ahead) && st.pending + chunk == ""
    ensures st.plain == [] && st.pending == ""
  {
    hide Frames, Stream;
  }

  lemma AfterCut(codec: Codec, st: State, lead: bool, fs: seq<string>, chunk: string, ahead: string, j: nat, q: string)
    returns (lead': bool, done: nat)
    requires Resting(codec, st, lead, fs, chunk + ahead) && j <= |fs| && Frames(codec, fs[..j])
    requires st.pending + chunk == LeadText(lead) + Stream(fs[..j]) + q && st.pending + chunk != ""
    requires CutAt(fs, Stream(fs[..j]) + q, ahead, j, q)
    ensures done <= |fs| && Frames(codec, fs[..done])
    ensures Resting(codec, Fed(codec, st, chunk), lead', fs[done..], ahead)
    ensures Fed(codec, st, chunk).events == st.events + EventsOf(codec, fs[..done])
    ensures lead' ==> done > 0 || lead
  {
    hide Extract, Frame, EventsOf, Begun, Resting, Fed, CutAt;
    FramesOf(codec, st, lead, fs, chunk + ahead);
    if q == "" {
      lead', done := false, j;
      CutBetween(codec, st, lead, fs, chunk, ahead, j);
      return;
    }
    CutHasFrame(fs, Stream(fs[..j]) + q, ahead, j, q);
    if q == fs[j] {
      lead', done := true, j + 1;
      CutBehind(codec, st, lead, fs, chunk, ahead, j);
      FramesPart(codec, fs, j + 1);
    } else {
      lead', done := false, j;
      CutInside(codec, st, lead, fs, chunk, ahead, j, q);
    }
  }

  lemma CutHasFrame(fs: seq<string>, c: string, ahead: string, j: nat, q: string)
    requires CutAt(fs, c, ahead, j, q) && q != ""
    ensures j < |fs|
  {
  }

  lemma CutBetween(codec: Codec, st: State, lead: bool, fs: seq<string>, chunk: string, ahead: string, j: nat)
    requires Resting(codec, st, lead, fs, chunk + ahead) && j <= |fs| && Frames(codec, fs[..j])
    requires st.pending + chunk == LeadText(lead) + Stream(fs[..j]) + "" && st.pending + chunk != ""
    requires CutAt(fs, Stream(fs[..j]) + "", ahead, j, "")
    ensures Resting(codec, Fed(codec, st, chunk), false, fs[j..], ahead)
    ensures Fed(codec, st, chunk).events == st.events + EventsOf(codec, fs[..j])
  {
    hide Extract, Frame, Frames, EventsOf;
    FramesPart(codec, fs, j);
    assert st.pending + chunk == LeadText(lead) + Stream(fs[..j]);
    CallAtLineEnd(codec, chunk, st.pending, st.locked, lead, fs[..j]);
    assert "" + ahead == LeadText(false) + Stream(fs[j..]);
  }

  lemma CutBehind(codec: Codec, st: State, lead: bool, fs: seq<string>, chunk: string, ahead: string, j: nat)
    requires Resting(codec, st, lead, fs, chunk + ahead) && j < |fs| && Frames(codec, fs[..j])
    requires st.pending + chunk == LeadText(lead) + Stream(fs[..j]) + fs[j] && fs[j] != ""
    requires CutAt(fs, Stream(fs[..j]) + fs[j], ahead, j, fs[j])
    ensures Frames(codec, fs[..j + 1])
    ensures Resting(codec, Fed(codec, st, chunk), true, fs[j + 1..], ahead)
    ensures Fed(codec, st, chunk).events == st.events + EventsOf(codec, fs[..j + 1])
  {
    hide Extract, Frame, EventsOf, Stream;
    FramesPart(codec, fs, j + 1);
    CallAtFrameEnd(codec, chunk, st.pending, st.locked, lead, fs[..j], fs[j]);
    EventsStep(codec, fs, j);
    var f := fs[j];
    assert f[|f|..] == "";
    assert "" + ahead == LeadText(true) + Stream(fs[j + 1..]);
  }

  lemma CutInside(codec: Codec, st: State, lead: bool, fs: seq<string>, chunk: string, ahead: string, j: nat, q: string)
    requires Resting(codec, st, lead, fs, chunk + ahead) && j < |fs| && Frames(codec, fs[..j])
    requires st.pending + chunk == LeadText(lead) + Stream(fs[..j]) + q && q != "" && q != fs[j]
    requires CutAt(fs, Stream(fs[..j]) + q, ahead, j, q)
    ensures Resting(codec, Fed(codec, st, chunk), false, fs[j..], ahead)
    ensures Fed(codec, st, chunk).events == st.events + EventsOf(codec, fs[..j])
  {
    hide Extract, Frame, EventsOf, Begun;
    FramesPart(codec, fs, j);
    PrefixBegun(codec, fs[j], q);
    CallInsideFrame(codec, chunk, st.pending, st.locked, lead, fs[..j], q);
    StreamTail(fs, j, q, ahead);
  }

  lemma StreamTail(fs: seq<string>, j: nat, q: string, ahead: string)
    requires j < |fs| && q <= fs[j] && ahead == fs[j][|q|..] + "\n" + Stream(fs[j + 1..])
    ensures q + ahead == LeadText(false) + Stream(fs[j..]) && fs[j..][0] == fs[j]
  {
    assert fs[j..][1..] == fs[j + 1..];
    assert q + fs[j][|q|..] == fs[j];
    assert q + ahead == fs[j] + "\n" + Stream(fs[j + 1..]);
  }

  lemma PrefixBegun(codec: Codec, f: string, q: string)
    requires Frame(codec, f) && q <= f && q != f
    ensures Begun(codec, q) && |q| < |f|
  {
  }

  /** Any number of calls. */
  lemma {:induction false} FeedAll(codec: Codec, st: State, lead: bool, fs: seq<string>, chunks: seq<string>, ahead: string)
    returns (lead': bool, done: nat)
    requires Resting(codec, st, lead, fs, Joined(chunks) + ahead)
    ensures done <= |fs| && Frames(codec, fs[..done])
    ensures Resting(codec, Feed(codec, st, chunks), lead', fs[done..], ahead)
    ensures Feed(codec, st, chunks).events == st.events + EventsOf(codec, fs[..done])
    ensures lead' ==> done > 0 || lead
    decreases |chunks|
  {
    hide Extract, Frame, Frames, EventsOf, Resting, Fed;
    if chunks == [] {
      NothingLeft(codec, st, lead, fs, ahead);
      return lead, 0;
    }
    var later := Joined(chunks[1..]) + ahead;
    assert Joined(chunks) + ahead == chunks[0] + later;
    var lead1, done1 := FeedOne(codec, st, lead, fs, chunks[0], later);
    var lead2, done2 := FeedAll(codec, Fed(codec, st, chunks[0]), lead1, fs[done1..], chunks[1..], ahead);
    lead', done := lead2, done1 + done2;
    FramesOf(codec, st, lead, fs, chunks[0] + later);
    EventsConcat(codec, fs, done1, done);
    assert fs[done1..][done2..] == fs[done..];
  }

  lemma FramesOf(codec: Codec, st: State, lead: bool, fs: seq<string>, ahead: string)
    requires Resting(codec, st, lead, fs, ahead)
    ensures Frames(codec, fs)
  {
  }

  lemma NothingLeft(codec: Codec, st: State, lead: bool, fs: seq<string>, ahead: string)
    requires Resting(codec, st, lead, fs, "" + ahead)
    ensures Resting(codec, st, lead, fs[0..], ahead)
    ensures Frames(codec, fs[..0]) && EventsOf(codec, fs[..0]) == []
  {
    assert fs[0..] == fs && "" + ahead == ahead;
  }

  const START := State([], [], "", false)

  /**
    Every way of cutting a stream of frames into chunks gives the events of all frames in order, no plain text, an
    empty pending buffer and a released lock.
   */
  lemma ChunkingIsIrrelevant(codec: Codec, fs: seq<string>, chunks: seq<string>)
    requires Frames(codec, fs) && Joined(chunks) == Stream(fs)
    ensures Feed(codec, START, chunks) == State(EventsOf(codec, fs), [], "", false)
  {
    hide Extract, Frame, Feed, Frames, EventsOf;
    assert Joined(chunks) + "" == Stream(fs) && "" + (Joined(chunks) + "") == LeadText(false) + Stream(fs);
    var lead, done := FeedAll(codec, START, false, fs, chunks, "");
    var r := Feed(codec, START, chunks);
    AllArrived(codec, r, lead, fs[done..]);
    assert fs[..done] == fs;
    assert [] + EventsOf(codec, fs) == EventsOf(codec, fs);
  }

  /** With nothing ahead no frame can be left. */
  lemma AllArrived(codec: Codec, st: State, lead: bool, fs: seq<string>)
    requires Resting(codec, st, lead, fs, "")
    ensures fs == [] && !lead && st.pending == "" && !st.locked
  {
    assert st.pending + "" == st.pending;
    StreamLonger(fs);
  }

  lemma StreamLonger(fs: seq<string>)
    ensures fs != [] ==> |Stream(fs)| > |fs[0]|
  {
  }

  // ----- A stream that breaks off -----

  lemma FlushPrefix(codec: Codec, q: string)
    requires Begun(codec, q)
    ensures Flush(codec, q).events == []
    ensures Flush(codec, q).plain == if Text.Strip(q) == "" then [] else [Text.Strip(q)]
    ensures q != "" ==> Text.Strip(q) != ""
  {
    if q != "" {
      var f :| Frame(codec, f) && |q| < |f| && q <= f;
      assert q == f[..|q|] && q[0] == f[0];
      Text.StripKeepsFirst(q);
      Text.StripRightShape(q);
      var s := Text.Strip(q);
      assert s == f[..|s|];
      Text.StripKeepsFirst(s);
    }
  }

  /**
    A stream that breaks off anywhere: the events of the frames that arrived whole come out whatever the chunks, and
    flushing gives back what arrived of the next frame as one plain text. Only that frame's newline may be missing
    from the reported frames.
   */
  lemma TruncatedStream(codec: Codec, fs: seq<string>, chunks: seq<string>, lost: string) returns (done: nat)
    requires Frames(codec, fs) && Joined(chunks) + lost == Stream(fs)
    ensures done <= |fs| && Frames(codec, fs[..done])
    ensures var r := Feed(codec, START, chunks);
      && r.events == EventsOf(codec, fs[..done]) && r.plain == []
      && (r.pending + lost == Stream(fs[done..]) || (r.pending == "" && lost == "\n" + Stream(fs[done..])))
      && (r.pending != "" ==> done < |fs| && |r.pending| < |fs[done]| && r.pending <= fs[done])
      && Flush(codec, r.pending) == Flushed([], if r.pending == "" then [] else [Text.Strip(r.pending)])
  {
    hide Extract, Frame, Feed, Frames, EventsOf, Flush, Begun;
    assert "" + (Joined(chunks) + lost) == LeadText(false) + Stream(fs);
    var lead;
    lead, done := FeedAll(codec, START, false, fs, chunks, lost);
    var r := Feed(codec, START, chunks);
    assert [] + EventsOf(codec, fs[..done]) == EventsOf(codec, fs[..done]);
    assert "" + Stream(fs[done..]) == Stream(fs[done..]) && "" + lost == lost;
    PendingBegun(codec, fs, done, r.pending);
    FlushPrefix(codec, r.pending);
  }

  lemma PendingBegun(codec: Codec, fs: seq<string>, done: nat, q: string)
    requires Frames(codec, fs) && done <= |fs| && (q != "" ==> done < |fs| && |q| < |fs[done]| && q <= fs[done])
    ensures Begun(codec, q)
  {
  }

  /**
    Outside frames the order of text is not kept: a complete structured line that does not decode is put behind the
    partial line that followed it, so the rest of that line will be appended to the wrong one.
   */
  lemma PartialLineOvertakes(codec: Codec, line: string, q: string)
    requires line != "" && line[0] == '{' && Text.Trimmed(line) && OneLine(line) && Decode(codec, line).None?
    requires q != "" && q[0] == '{' && OneLine(q) && |q| + 1 + |line| <= MAX_PENDING
    requires Decode(codec, q + "\n" + line).None?
    ensures Extract(codec, line + "\n" + q, "", false) == State([], [], q + "\n" + line, true)
  {
    hide SplitLines, OneLine, LineSteps, Settle, Decode, Text.Strip, LooksStructured, Extract;
    SplitFirst(line, q);
    SplitLast(q);
    var combined, pending := line + "\n" + q, q + "\n" + line;
    LastOf(line, q);
    assert SplitLines(combined) == [line, q];
    BraceLooksStructured(q);
    UndecodedLine(codec, line, q);
    BraceLooksStructured(pending);
    UndecodedRest(codec, pending);
    LineAndRest(codec, combined, line, q);
  }

  lemma LineAndRest(codec: Codec, chunk: string, line: string, q: string)
    requires chunk != "" && !EndsLine(chunk) && SplitLines(chunk) == [line, q]
    ensures Extract(codec, chunk, "", false) == Bounded(Settle(codec, LineSteps(codec, State([], [], q, LooksStructured(q)), [line])))
  {
    hide SplitLines, LineSteps, Settle, LooksStructured, Bounded;
    assert "" + chunk == chunk && [line, q][..1] == [line];
  }

  lemma BraceLooksStructured(s: string)
    requires s != "" && s[0] == '{'
    ensures LooksStructured(s) && Text.Strip(s) != ""
  {
    hide Text.Strip, Text.StripLeft;
    Text.StripKeepsFirst(s);
  }

  lemma UndecodedLine(codec: Codec, line: string, q: string)
    requires line != "" && line[0] == '{' && Text.Trimmed(line) && Decode(codec, line).None? && q != ""
    ensures LineSteps(codec, State([], [], q, true), [line]) == State([], [], q + "\n" + line, true)
  {
    hide Text.Strip, Decode;
    Text.StripTrimmed(line);
    assert [line][..0] == [];
  }

  lemma UndecodedRest(codec: Codec, pending: string)
    requires pending != "" && pending[0] == '{' && Decode(codec, pending).None?
    ensures Settle(codec, State([], [], pending, true)) == State([], [], pending, true)
  {
    hide Text.Strip, Decode, LooksStructured, Text.StripLeft;
    Text.StripKeepsFirst(pending);
    assert AllEventsIn([]) == [];
  }

  lemma LastOf(line: string, q: string)
    requires q != "" && OneLine(q)
    ensures var combined := line + "\n" + q; combined != "" && !EndsLine(combined)
  {
    assert q[|q| - 1] in q;
  }

  // ----- Frames exist -----

  /** A codec that reads brace blocks: the first block, if the text starts with one. */
  function BlockCodec(read: string -> Payload): Codec {
    (s: string) =>
      var spans := BracketScanner.Spans(s, |s|);
      if spans != [] && spans[0].from == 0 && spans[0].to <= |s| then Some(Decoded(read(s[..spans[0].to]), spans[0].to)) else None
  }

  lemma NoBlockInPrefix(f: string, k: nat)
    requires BracketScanner.IsBlock(BracketScanner.CURLY, f) && 0 < k < |f|
    ensures var spans := BracketScanner.Spans(f[..k], k);
      spans == [] || spans[0].from != 0 || spans[0].to > k
  {
    var q := f[..k];
    var spans := BracketScanner.Spans(q, |q|);
    if spans != [] && spans[0].from == 0 {
      assert spans[0] in spans;
      BracketScanner.SpansAreTopLevelBlocks(q, |q|, spans[0]);
      var n := spans[0].to;
      assert q[0..n] == f[..n];
      BracketScanner.BlocksDelimitThemselves(BracketScanner.CURLY, f, n);
      assert false;
    }
  }

  /** Brace blocks on one line are frames for that codec: balance outside quotes makes a language self-delimiting. */
  lemma BlocksAreFrames(read: string -> Payload, f: string)
    requires BracketScanner.IsBlock(BracketScanner.CURLY, f) && OneLine(f) && |f| <= MAX_PENDING && EventsIn(read(f)) != []
    ensures Frame(BlockCodec(read), f)
  {
    hide BracketScanner.IsBlock, BracketScanner.Spans, OneLine;
    BracketScanner.BlockOfABlock(f);
    assert f[..|f|] == f;
    BlockEnds(f);
    forall k | 0 < k < |f| ensures Decode(BlockCodec(read), f[..k]).None? {
      NoBlockInPrefix(f, k);
    }
  }

  lemma BlockEnds(f: string)
    requires BracketScanner.IsBlock(BracketScanner.CURLY, f)
    ensures f != "" && f[0] == '{' && f[|f| - 1] == '}'
  {
    assert |f| > 1 ==> BracketScanner.Depth(BracketScanner.CURLY, f[..|f| - 1]) > 0;
    assert f[..0] == "";
  }
}
