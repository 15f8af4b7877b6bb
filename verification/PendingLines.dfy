/** Which text a call of the extractor holds back, and in which order. */
module PendingLines {
  import opened StreamParser
  import Text

  /** A complete line that is dealt with at once: nothing to keep, plain text, or a value that carries events. */
  predicate Passes(codec: Codec, raw: string, locked: bool) {
    var line := Text.Strip(raw);
    || line == "" || StartsWith(line, "```")
    || (!locked && !LooksStructured(line))
    || (Loads(codec, line).Some? && EventsIn(Loads(codec, line).value) != [])
  }

  /** The lines that are not, each judged under the lock it meets. */
  function HeldBack(codec: Codec, st: State, lines: seq<string>): seq<string> {
    if lines == [] then []
    else
      var init, last := lines[..|lines| - 1], lines[|lines| - 1];
      HeldBack(codec, st, init) + if Passes(codec, last, LineSteps(codec, st, init).locked) then [] else [Text.Strip(last)]
  }

  /** `held` line by line behind `q`. */
  function Behind(q: string, held: seq<string>): string {
    if held == [] then q else AppendPending(Behind(q, held[..|held| - 1]), held[|held| - 1])
  }

  ghost predicate AllPass(codec: Codec, st: State, lines: seq<string>) {
    forall i :: 0 <= i < |lines| ==> Passes(codec, lines[i], LineSteps(codec, st, lines[..i]).locked)
  }

  ghost predicate NoneBlank(held: seq<string>) {
    forall i :: 0 <= i < |held| ==> held[i] != ""
  }

  lemma LineHeld(codec: Codec, st: State, raw: string)
    ensures LineStep(codec, st, raw).pending == if Passes(codec, raw, st.locked) then st.pending else AppendPending(st.pending, Text.Strip(raw))
    ensures !Passes(codec, raw, st.locked) ==> Text.Strip(raw) != ""
  {
    hide Text.Strip, LooksStructured, Loads, EventsIn, StartsWith, AppendPending;
  }

  lemma LineStepsStep(codec: Codec, st: State, lines: seq<string>)
    requires lines != []
    ensures var init, last := lines[..|lines| - 1], lines[|lines| - 1];
      LineSteps(codec, st, lines) == LineStep(codec, LineSteps(codec, st, init), last)
  {
  }

  /** The pending text is what was there before, followed by the lines held back. */
  lemma {:induction false} PendingIsBehind(codec: Codec, st: State, lines: seq<string>)
    ensures LineSteps(codec, st, lines).pending == Behind(st.pending, HeldBack(codec, st, lines))
    ensures NoneBlank(HeldBack(codec, st, lines))
    ensures HeldBack(codec, st, lines) == [] <==> AllPass(codec, st, lines)
  {
    hide LineStep, Passes, Text.Strip, AppendPending;
    if lines != [] {
      var init, last := lines[..|lines| - 1], lines[|lines| - 1];
      PendingIsBehind(codec, st, init);
      LineStepsStep(codec, st, lines);
      LineHeld(codec, LineSteps(codec, st, init), last);
      AllPassStep(codec, st, lines);
      var held := HeldBack(codec, st, lines);
      assert held != HeldBack(codec, st, init) ==> held[..|held| - 1] == HeldBack(codec, st, init);
    }
  }

  lemma AllPassStep(codec: Codec, st: State, lines: seq<string>)
    requires lines != []
    ensures var init, last := lines[..|lines| - 1], lines[|lines| - 1];
      AllPass(codec, st, lines) <==> AllPass(codec, st, init) && Passes(codec, last, LineSteps(codec, st, init).locked)
  {
    hide LineSteps, Passes;
    var init := lines[..|lines| - 1];
    assert forall i :: 0 <= i < |init| ==> init[i] == lines[i] && init[..i] == lines[..i];
  }

  lemma {:induction false} BehindGrows(q: string, held: seq<string>)
    requires NoneBlank(held)
    ensures q <= Behind(q, held)
    ensures Behind(q, held) == q <==> held == []
  {
    if held != [] {
      BehindGrows(q, held[..|held| - 1]);
    }
  }

  // ----- A call that ends inside a line -----

  lemma PartialCall(codec: Codec, chunk: string, pending: string, locked: bool)
    requires pending + chunk != "" && !EndsLine(pending + chunk) && SplitLines(pending + chunk) != []
    ensures var lines := SplitLines(pending + chunk);
      var q, complete := lines[|lines| - 1], lines[..|lines| - 1];
      Extract(codec, chunk, pending, locked)
      == Bounded(Settle(codec, LineSteps(codec, State([], [], q, locked || LooksStructured(q)), complete)))
  {
    hide SplitLines, LineSteps, Settle, Bounded, LooksStructured;
  }

  /**
    For every chunk, buffer and lock: what is decoded after the complete lines is the partial line exactly if each of
    them is dealt with at once. All others stand behind the partial line they came before, in their own order.
   */
  lemma OvertakesIff(codec: Codec, chunk: string, pending: string, locked: bool)
    requires pending + chunk != "" && !EndsLine(pending + chunk) && SplitLines(pending + chunk) != []
    ensures var lines := SplitLines(pending + chunk);
      var q, complete := lines[|lines| - 1], lines[..|lines| - 1];
      var st := State([], [], q, locked || LooksStructured(q));
      var before := LineSteps(codec, st, complete);
      && Extract(codec, chunk, pending, locked) == Bounded(Settle(codec, before))
      && before.pending == Behind(q, HeldBack(codec, st, complete)) && q <= before.pending
      && (before.pending == q <==> AllPass(codec, st, complete))
  {
    hide SplitLines, LineSteps, Settle, Bounded, LooksStructured, Extract, HeldBack, Behind, AllPass, NoneBlank;
    var lines := SplitLines(pending + chunk);
    var q, complete := lines[|lines| - 1], lines[..|lines| - 1];
    var st := State([], [], q, locked || LooksStructured(q));
    PartialCall(codec, chunk, pending, locked);
    PendingIsBehind(codec, st, complete);
    BehindGrows(q, HeldBack(codec, st, complete));
  }

  /** A call that ends with a line keeps the order: what it decodes are the lines held back, as they came. */
  lemma WholeLinesKeepOrder(codec: Codec, chunk: string, pending: string, locked: bool)
    requires pending + chunk != "" && EndsLine(pending + chunk)
    ensures var lines, st := SplitLines(pending + chunk), State([], [], "", locked);
      var before := LineSteps(codec, st, lines);
      && Extract(codec, chunk, pending, locked) == Bounded(Settle(codec, before))
      && before.pending == Behind("", HeldBack(codec, st, lines))
  {
    hide SplitLines, LineSteps, Settle, Bounded, HeldBack, Behind;
    PendingIsBehind(codec, State([], [], "", locked), SplitLines(pending + chunk));
  }
}
