/**
  The quote-aware scanners that cut bracketed blocks out of free text. A block is defined on its own, by its
  nesting depth; the scanners are proved to find exactly the blocks.
 */
module BracketScanner {
  import opened Wrappers

  datatype Pair = Pair(open: char, close: char)

  const CURLY := Pair('{', '}')
  const SQUARE := Pair('[', ']')

  /** Where in a quoted string the scan is; `mark` is the quote that ends it. */
  datatype Mode = Plain | Quoted(mark: char) | Escaped(mark: char)

  predicate IsQuote(c: char) {
    c == '"' || c == '\''
  }

  function NextMode(mode: Mode, c: char): Mode {
    match mode
    case Plain => if IsQuote(c) then Quoted(c) else Plain
    case Quoted(q) => if c == '\\' then Escaped(q) else if c == q then Plain else mode
    case Escaped(q) => Quoted(q)
  }

  /** How much one character changes the nesting depth. */
  function Weight(pair: Pair, mode: Mode, c: char): int {
    if !mode.Plain? || IsQuote(c) then 0 else if c == pair.open then 1 else if c == pair.close then -1 else 0
  }

  function ModeAfter(s: string): Mode {
    if s == "" then Plain else NextMode(ModeAfter(s[..|s| - 1]), s[|s| - 1])
  }

  /** Openings minus closings outside quotes. */
  function Depth(pair: Pair, s: string): int {
    if s == "" then 0
    else Depth(pair, s[..|s| - 1]) + Weight(pair, ModeAfter(s[..|s| - 1]), s[|s| - 1])
  }

  /** Balanced, opened by its first character and closed by its last and not before. */
  ghost predicate IsBlock(pair: Pair, s: string) {
    && s != "" && s[0] == pair.open
    && Depth(pair, s) == 0
    && forall k :: 0 < k < |s| ==> Depth(pair, s[..k]) > 0
  }

  /** No proper prefix of a block is a block: blocks delimit themselves. */
  lemma BlocksDelimitThemselves(pair: Pair, s: string, k: nat)
    requires IsBlock(pair, s) && k < |s|
    ensures !IsBlock(pair, s[..k])
  {
    if 0 < k {
      assert Depth(pair, s[..k]) > 0;
    }
  }

  // ----- What quotes mean -----

  /** Text that may stand between two quotes: neither the quote nor a lone backslash. */
  predicate Inner(body: string, quote: char) {
    body == ""
    || (body[0] != '\\' && body[0] != quote && Inner(body[1..], quote))
    || (|body| >= 2 && body[0] == '\\' && Inner(body[2..], quote))
  }

  /** Outside quotes each bracket counts, and only it. */
  lemma PlainCounts(pair: Pair, s: string, c: char)
    requires ModeAfter(s) == Plain && c != '"' && c != '\''
    ensures ModeAfter("") == Plain && Depth(pair, "") == 0
    ensures ModeAfter(s + [c]) == Plain
    ensures Depth(pair, s + [c]) == Depth(pair, s) + if c == pair.open then 1 else if c == pair.close then -1 else 0
  {
    assert (s + [c])[..|s|] == s;
  }

  /** From a quote up to the next one of its kind that is not escaped no bracket counts. */
  lemma QuotedCountsNothing(pair: Pair, s: string, quote: char, body: string)
    requires ModeAfter(s) == Plain && (quote == '"' || quote == '\'') && Inner(body, quote)
    ensures ModeAfter(s + [quote] + body) == Quoted(quote) && Depth(pair, s + [quote] + body) == Depth(pair, s)
    ensures ModeAfter(s + [quote] + body + [quote]) == Plain && Depth(pair, s + [quote] + body + [quote]) == Depth(pair, s)
  {
    OneMore(pair, s, quote);
    InnerCountsNothing(pair, s + [quote], quote, body);
    OneMore(pair, s + [quote] + body, quote);
  }

  lemma OneMore(pair: Pair, s: string, c: char)
    ensures ModeAfter(s + [c]) == NextMode(ModeAfter(s), c)
    ensures Depth(pair, s + [c]) == Depth(pair, s) + Weight(pair, ModeAfter(s), c)
  {
    assert (s + [c])[..|s|] == s;
  }

  lemma {:induction false} InnerCountsNothing(pair: Pair, s: string, quote: char, body: string)
    requires ModeAfter(s) == Quoted(quote) && Inner(body, quote)
    ensures ModeAfter(s + body) == Quoted(quote) && Depth(pair, s + body) == Depth(pair, s)
    decreases |body|
  {
    hide ModeAfter, Depth;
    if body == "" {
      assert s + body == s;
    } else {
      OneMore(pair, s, body[0]);
      if body[0] != '\\' {
        InnerCountsNothing(pair, s + [body[0]], quote, body[1..]);
        assert (s + [body[0]]) + body[1..] == s + body;
      } else {
        OneMore(pair, s + [body[0]], body[1]);
        InnerCountsNothing(pair, s + [body[0]] + [body[1]], quote, body[2..]);
        assert (s + [body[0]] + [body[1]]) + body[2..] == s + body;
      }
    }
  }

  lemma Extend(pair: Pair, content: string, i: nat, k: nat)
    requires i <= k < |content|
    ensures ModeAfter(content[i..k + 1]) == NextMode(ModeAfter(content[i..k]), content[k])
    ensures Depth(pair, content[i..k + 1]) == Depth(pair, content[i..k]) + Weight(pair, ModeAfter(content[i..k]), content[k])
  {
    assert content[i..k + 1][..k - i] == content[i..k];
  }

  // ----- One block from a given bracket -----

  /** `_extract_bracket_block`: the one block that starts at `start`, if there is one. */
  method ExtractBracketBlock(content: string, start: int) returns (block: Option<string>)
    ensures block.Some? ==>
      0 <= start && start + |block.value| <= |content|
      && block.value == content[start..start + |block.value|] && IsBlock(SQUARE, block.value)
    ensures block.None? ==>
      start < 0 || forall k :: start <= k <= |content| ==> !IsBlock(SQUARE, content[start..k])
  {
    hide IsBlock, Depth, ModeAfter;
    block := None;
    if start < 0 || start >= |content| || content[start] != '[' {
      NoBracketNoBlock(content, start);
      return;
    }
    EmptyScan(SQUARE, content, start);
    var depth, inQuote, quoteChar, escaped := 0, false, ' ', false;
    for index := start to |content|
      invariant depth == Depth(SQUARE, content[start..index])
      invariant ModeAfter(content[start..index]) == if !inQuote then Plain else if escaped then Escaped(quoteChar) else Quoted(quoteChar)
      invariant inQuote ==> IsQuote(quoteChar)
      invariant escaped ==> inQuote
      invariant forall k :: start < k <= index ==> Depth(SQUARE, content[start..k]) > 0
    {
      Extend(SQUARE, content, start, index);
      var c := content[index];
      if inQuote {
        if escaped {
          escaped := false;
          continue;
        }
        if c == '\\' {
          escaped := true;
          continue;
        }
        if c == quoteChar {
          inQuote := false;
        }
        continue;
      }
      if c == '"' || c == '\'' {
        inQuote, quoteChar := true, c;
        continue;
      }
      if c == '[' {
        depth := depth + 1;
        continue;
      }
      if c == ']' {
        depth := depth - 1;
        if depth == 0 {
          BlockFound(content, start, index + 1);
          return Some(content[start..index + 1]);
        }
      }
    }
    NeverClosed(content, start);
  }

  lemma EmptyScan(pair: Pair, content: string, i: nat)
    requires i <= |content|
    ensures ModeAfter(content[i..i]) == Plain && Depth(pair, content[i..i]) == 0
  {
  }

  lemma NoBracketNoBlock(content: string, start: int)
    requires start < 0 || start >= |content| || content[start] != '['
    ensures start < 0 || forall k :: start <= k <= |content| ==> !IsBlock(SQUARE, content[start..k])
  {
  }

  lemma NeverClosed(content: string, start: nat)
    requires forall k :: start < k <= |content| ==> Depth(SQUARE, content[start..k]) > 0
    ensures forall k :: start <= k <= |content| ==> !IsBlock(SQUARE, content[start..k])
  {
    forall k | start <= k <= |content| ensures !IsBlock(SQUARE, content[start..k]) {
      assert start < k ==> Depth(SQUARE, content[start..k]) > 0;
    }
  }

  lemma BlockFound(content: string, start: nat, end: nat)
    requires start < end <= |content| && content[start] == '[' && Depth(SQUARE, content[start..end]) == 0
    requires forall k :: start < k < end ==> Depth(SQUARE, content[start..k]) > 0
    ensures IsBlock(SQUARE, content[start..end])
  {
    var s := content[start..end];
    forall k | 0 < k < |s| ensures Depth(SQUARE, s[..k]) > 0 {
      assert s[..k] == content[start..start + k];
    }
  }

  // ----- Every top-level block -----

  /** The scan over the whole text: like `Depth`, but a closing brace at depth 0 is ignored. */
  datatype Scan = Scan(mode: Mode, depth: nat, start: nat)

  function Advance(st: Scan, c: char, index: nat): Scan {
    var mode := NextMode(st.mode, c);
    var w := Weight(CURLY, st.mode, c);
    if w == 1 then Scan(mode, st.depth + 1, if st.depth == 0 then index else st.start)
    else if w == -1 && st.depth > 0 then Scan(mode, st.depth - 1, st.start)
    else Scan(mode, st.depth, st.start)
  }

  function ScanTo(content: string, n: nat): Scan
    requires n <= |content|
  {
    if n == 0 then Scan(Plain, 0, 0) else Advance(ScanTo(content, n - 1), content[n - 1], n - 1)
  }

  /** How far the depth has risen above its lowest point so far. */
  ghost predicate Risen(content: string, n: nat, depth: int)
    requires n <= |content|
  {
    && (forall k :: 0 <= k <= n ==> Depth(CURLY, content[..n]) - Depth(CURLY, content[..k]) <= depth)
    && exists k :: 0 <= k <= n && Depth(CURLY, content[..n]) - Depth(CURLY, content[..k]) == depth
  }

  /** The scan knows whether it is in quotes, and how many braces are open, unmatched closing ones left aside. */
  lemma {:induction false} ScanMeans(content: string, n: nat)
    requires n <= |content|
    ensures ScanTo(content, n).mode == ModeAfter(content[..n])
    ensures Risen(content, n, ScanTo(content, n).depth)
  {
    hide Depth, Risen, ModeAfter;
    if n == 0 {
      NothingRisen(content);
    } else {
      ScanMeans(content, n - 1);
      Extend(CURLY, content, 0, n - 1);
      assert content[0..n - 1] == content[..n - 1] && content[0..n] == content[..n];
      RisenMore(content, n - 1, ScanTo(content, n - 1).depth, Weight(CURLY, ModeAfter(content[..n - 1]), content[n - 1]));
    }
  }

  lemma NothingRisen(content: string)
    ensures ModeAfter(content[..0]) == Plain && Risen(content, 0, 0)
  {
    assert Depth(CURLY, content[..0]) - Depth(CURLY, content[..0]) == 0;
  }

  lemma RisenMore(content: string, n: nat, depth: nat, w: int)
    requires n < |content| && Risen(content, n, depth) && -1 <= w <= 1
    requires Depth(CURLY, content[..n + 1]) == Depth(CURLY, content[..n]) + w
    ensures Risen(content, n + 1, if depth + w < 0 then 0 else depth + w)
  {
    hide Depth;
    var k :| 0 <= k <= n && Depth(CURLY, content[..n]) - Depth(CURLY, content[..k]) == depth;
    assert Depth(CURLY, content[..n + 1]) - Depth(CURLY, content[..k]) == depth + w;
    assert Depth(CURLY, content[..n + 1]) - Depth(CURLY, content[..n + 1]) == 0;
    forall j | 0 <= j <= n + 1
      ensures Depth(CURLY, content[..n + 1]) - Depth(CURLY, content[..j]) <= if depth + w < 0 then 0 else depth + w
    {
      if j <= n { assert Depth(CURLY, content[..n]) - Depth(CURLY, content[..j]) <= depth; }
    }
  }

  /** Half-open index range of a block. */
  datatype Span = Span(from: nat, to: nat)

  /** A block that starts outside quotes and outside every other block. */
  ghost predicate TopLevel(content: string, b: Span) {
    && b.from < b.to <= |content|
    && ScanTo(content, b.from).mode == Plain && ScanTo(content, b.from).depth == 0
    && IsBlock(CURLY, content[b.from..b.to])
  }

  /** The blocks the scan has closed within the first `n` characters. */
  function Spans(content: string, n: nat): seq<Span>
    requires n <= |content|
  {
    if n == 0 then []
    else
      var st := ScanTo(content, n - 1);
      Spans(content, n - 1) + if st.depth > 0 && ScanTo(content, n).depth == 0 then [Span(st.start, n)] else []
  }

  /** Inside a block the scan counts depth from the block's start. */
  ghost predicate Inside(content: string, i: nat, n: nat) {
    && i < n <= |content|
    && ScanTo(content, i).mode == Plain && ScanTo(content, i).depth == 0 && content[i] == '{'
    && ScanTo(content, n).start == i
    && ScanTo(content, n).mode == ModeAfter(content[i..n])
    && ScanTo(content, n).depth as int == Depth(CURLY, content[i..n])
    && forall k :: i < k < n ==> Depth(CURLY, content[i..k]) > 0
  }

  lemma InsideStart(content: string, i: nat)
    requires i < |content| && ScanTo(content, i).mode == Plain && ScanTo(content, i).depth == 0 && content[i] == '{'
    ensures Inside(content, i, i + 1) && ScanTo(content, i + 1).depth == 1
  {
    Extend(CURLY, content, i, i);
  }

  lemma InsideStep(content: string, i: nat, n: nat)
    requires Inside(content, i, n) && n < |content| && ScanTo(content, n).depth > 0
    ensures Inside(content, i, n + 1)
  {
    Extend(CURLY, content, i, n);
  }

  /** While the depth is positive the scan is inside a block that started at `start`. */
  lemma {:induction false} OpenBlock(content: string, n: nat)
    requires n <= |content|
    ensures ScanTo(content, n).depth > 0 ==> Inside(content, ScanTo(content, n).start, n)
  {
    if n > 0 {
      OpenBlock(content, n - 1);
      var st := ScanTo(content, n - 1);
      if st.depth > 0 {
        InsideStep(content, st.start, n - 1);
      } else if ScanTo(content, n).depth > 0 {
        InsideStart(content, n - 1);
      }
    }
  }

  /** Along a top-level block the scan stays inside it. */
  lemma {:induction false} AlongBlock(content: string, b: Span, n: nat)
    requires TopLevel(content, b) && b.from < n <= b.to
    ensures Inside(content, b.from, n)
  {
    var s := content[b.from..b.to];
    assert s[0] == content[b.from];
    if n == b.from + 1 {
      InsideStart(content, b.from);
    } else {
      AlongBlock(content, b, n - 1);
      assert s[..n - 1 - b.from] == content[b.from..n - 1];
      InsideStep(content, b.from, n - 1);
    }
  }

  lemma InsideIsBlock(content: string, i: nat, n: nat)
    requires Inside(content, i, n) && Depth(CURLY, content[i..n]) == 0
    ensures IsBlock(CURLY, content[i..n])
  {
    hide ScanTo;
    var s := content[i..n];
    forall k | 0 < k < |s| ensures Depth(CURLY, s[..k]) > 0 {
      assert s[..k] == content[i..i + k];
    }
  }

  lemma ClosedBlock(content: string, n: nat)
    requires 0 < n <= |content| && ScanTo(content, n - 1).depth > 0 && ScanTo(content, n).depth == 0
    ensures TopLevel(content, Span(ScanTo(content, n - 1).start, n))
  {
    OpenBlock(content, n - 1);
    var i := ScanTo(content, n - 1).start;
    InsideStep(content, i, n - 1);
    InsideIsBlock(content, i, n);
  }

  /** The scan reports exactly the top-level blocks. */
  lemma {:induction false} SpansAreTopLevelBlocks(content: string, n: nat, b: Span)
    requires n <= |content|
    ensures b in Spans(content, n) <==> TopLevel(content, b) && b.to <= n
  {
    hide Spans, ScanTo, IsBlock;
    SpansStep(content, n, b);
    if n > 0 {
      SpansAreTopLevelBlocks(content, n - 1, b);
      if Closes(content, n) {
        ClosedBlock(content, n);
      }
      if TopLevel(content, b) && b.to == n {
        TopLevelCloses(content, b);
      }
    }
  }

  /** The scan leaves a block at the n-th character. */
  predicate Closes(content: string, n: nat)
    requires 0 < n <= |content|
  {
    ScanTo(content, n - 1).depth > 0 && ScanTo(content, n).depth == 0
  }

  lemma SpansStep(content: string, n: nat, b: Span)
    requires n <= |content|
    ensures b in Spans(content, n) <==>
      n > 0 && (b in Spans(content, n - 1) || (Closes(content, n) && b == Span(ScanTo(content, n - 1).start, n)))
  {
    hide ScanTo;
  }

  lemma TopLevelCloses(content: string, b: Span)
    requires TopLevel(content, b)
    ensures Closes(content, b.to) && ScanTo(content, b.to - 1).start == b.from
  {
    hide ScanTo;
    var s := content[b.from..b.to];
    AlongBlock(content, b, b.to);
    assert s[0] == content[b.from];
    if b.from + 1 < b.to {
      AlongBlock(content, b, b.to - 1);
      assert s[..|s| - 1] == content[b.from..b.to - 1];
    } else {
      InsideStart(content, b.from);
    }
  }

  /** Blocks come out in text order and do not overlap. */
  lemma {:induction false} SpansAreDisjoint(content: string, n: nat)
    requires n <= |content|
    ensures forall x, y :: 0 <= x < y < |Spans(content, n)| ==> Spans(content, n)[x].to <= Spans(content, n)[y].from
    ensures forall x :: 0 <= x < |Spans(content, n)| ==> Spans(content, n)[x].to <= n
    ensures forall x :: 0 <= x < |Spans(content, n)| && ScanTo(content, n).depth > 0 ==> Spans(content, n)[x].to <= ScanTo(content, n).start
  {
    if n > 0 {
      SpansAreDisjoint(content, n - 1);
    }
  }

  /** `texts` are the stretches of `content` that `spans` mark. */
  ghost predicate Cut(content: string, spans: seq<Span>, texts: seq<string>) {
    && |texts| == |spans|
    && forall x :: 0 <= x < |spans| ==>
      spans[x].from < spans[x].to <= |content| && texts[x] == content[spans[x].from..spans[x].to]
  }

  /** `_extract_object_blocks`. */
  method ExtractObjectBlocks(content: string) returns (blocks: seq<string>)
    ensures Cut(content, Spans(content, |content|), blocks)
  {
    blocks := [];
    var start, depth, inQuote, quoteChar, escaped := -1, 0, false, ' ', false;
    for index := 0 to |content|
      invariant Cut(content, Spans(content, index), blocks)
      invariant depth == ScanTo(content, index).depth
      invariant depth > 0 ==> start == ScanTo(content, index).start
      invariant ScanTo(content, index).mode == if !inQuote then Plain else if escaped then Escaped(quoteChar) else Quoted(quoteChar)
      invariant inQuote ==> IsQuote(quoteChar)
      invariant escaped ==> inQuote
    {
      var c := content[index];
      if inQuote {
        if escaped {
          escaped := false;
          continue;
        }
        if c == '\\' {
          escaped := true;
          continue;
        }
        if c == quoteChar {
          inQuote := false;
        }
        continue;
      }
      if c == '"' || c == '\'' {
        inQuote, quoteChar := true, c;
        continue;
      }
      if c == '{' {
        if depth == 0 {
          start := index;
        }
        depth := depth + 1;
        continue;
      }
      if c == '}' {
        if depth == 0 {
          continue;
        }
        depth := depth - 1;
        if depth == 0 && start != -1 {
          ClosedBlock(content, index + 1);
          blocks := blocks + [content[start..index + 1]];
          start := -1;
        }
      }
    }
  }

  lemma NoRoomBeside(s: string, w: nat, x: nat)
    requires w < |Spans(s, |s|)| && x < |Spans(s, |s|)| && Spans(s, |s|)[w] == Span(0, |s|)
    ensures x == w
  {
    hide TopLevel;
    var spans := Spans(s, |s|);
    SpansAreDisjoint(s, |s|);
    assert spans[x] in spans;
    SpansAreTopLevelBlocks(s, |s|, spans[x]);
    TopLevelRange(s, spans[x]);
  }

  lemma TopLevelRange(s: string, b: Span)
    requires TopLevel(s, b)
    ensures b.from < b.to <= |s|
  {
  }

  /** Applied to one of its own blocks the scanner gives back just that block. */
  lemma BlockOfABlock(s: string)
    requires IsBlock(CURLY, s)
    ensures Spans(s, |s|) == [Span(0, |s|)]
  {
    var whole, spans := Span(0, |s|), Spans(s, |s|);
    assert s[0..|s|] == s;
    assert TopLevel(s, whole);
    SpansAreTopLevelBlocks(s, |s|, whole);
    var w :| 0 <= w < |spans| && spans[w] == whole;
    NoRoomBeside(s, w, 0);
    NoRoomBeside(s, w, |spans| - 1);
  }

  /** Every extracted text is a block, so extracting from it changes nothing. */
  lemma ExtractedTextsAreBlocks(content: string, blocks: seq<string>)
    requires Cut(content, Spans(content, |content|), blocks)
    ensures forall b :: b in blocks ==> IsBlock(CURLY, b) && Spans(b, |b|) == [Span(0, |b|)]
  {
    var spans := Spans(content, |content|);
    forall b | b in blocks ensures IsBlock(CURLY, b) && Spans(b, |b|) == [Span(0, |b|)] {
      var x :| 0 <= x < |blocks| && blocks[x] == b;
      assert spans[x] in spans;
      SpansAreTopLevelBlocks(content, |content|, spans[x]);
      BlockOfABlock(b);
    }
  }
}
