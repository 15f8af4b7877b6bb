/** The Python string operations the models need. */
module Text {

  /** `str.isspace` for one character. */
  predicate IsSpace(c: char) {
    || c == ' ' || '\t' <= c <= '\r' || '\U{1C}' <= c <= '\U{1F}' || c == '\U{85}' || c == '\U{A0}'
    || c == '\U{1680}' || '\U{2000}' <= c <= '\U{200A}' || c == '\U{2028}' || c == '\U{2029}'
    || c == '\U{202F}' || c == '\U{205F}' || c == '\U{3000}'
  }

  /** Among the ASCII characters: blank, tab, the line ends and the four separators. */
  lemma SpacesMean(c: char)
    requires c <= '~'
    ensures IsSpace(c) <==> c in " \t\n\U{0B}\U{0C}\r\U{1C}\U{1D}\U{1E}\U{1F}"
  {
  }

  function StripLeft(s: string): (r: string)
    ensures |r| <= |s|
  {
    if s != "" && IsSpace(s[0]) then StripLeft(s[1..]) else s
  }

  function StripRight(s: string): string {
    if s != "" && IsSpace(s[|s| - 1]) then StripRight(s[..|s| - 1]) else s
  }

  /** `str.strip()`. */
  function Strip(s: string): string {
    StripRight(StripLeft(s))
  }

  /** Nothing for `strip` to remove. */
  predicate Trimmed(s: string) {
    s == "" || (!IsSpace(s[0]) && !IsSpace(s[|s| - 1]))
  }

  lemma {:induction false} StripLeftShape(s: string)
    ensures exists n :: 0 <= n <= |s| && StripLeft(s) == s[n..]
    ensures StripLeft(s) == "" || !IsSpace(StripLeft(s)[0])
  {
    if s != "" && IsSpace(s[0]) {
      StripLeftShape(s[1..]);
      var n :| 0 <= n <= |s[1..]| && StripLeft(s[1..]) == s[1..][n..];
      assert s[1..][n..] == s[n + 1..];
    } else {
      assert s[0..] == s;
    }
  }

  lemma {:induction false} StripRightShape(s: string)
    ensures StripRight(s) <= s
    ensures StripRight(s) == "" || !IsSpace(StripRight(s)[|StripRight(s)| - 1])
  {
    if s != "" && IsSpace(s[|s| - 1]) {
      StripRightShape(s[..|s| - 1]);
    }
  }

  lemma StripTrims(s: string)
    ensures Trimmed(Strip(s))
    ensures forall c :: c in Strip(s) ==> c in s
    ensures |Strip(s)| <= |s|
  {
    StripLeftShape(s);
    StripRightShape(StripLeft(s));
  }

  ghost predicate AllSpaces(s: string) {
    forall k :: 0 <= k < |s| ==> IsSpace(s[k])
  }

  /** Stripping takes all white space off both ends, and nothing else. */
  lemma StripMeans(s: string) returns (left: string, right: string)
    ensures s == left + Strip(s) + right
    ensures AllSpaces(left) && AllSpaces(right) && Trimmed(Strip(s))
  {
    StripTrims(s);
    left := LeftMeans(s);
    right := RightMeans(StripLeft(s));
  }

  lemma {:induction false} LeftMeans(s: string) returns (left: string)
    ensures s == left + StripLeft(s) && AllSpaces(left)
  {
    left := "";
    if s != "" && IsSpace(s[0]) {
      var more := LeftMeans(s[1..]);
      left := [s[0]] + more;
    }
  }

  lemma {:induction false} RightMeans(s: string) returns (right: string)
    ensures s == StripRight(s) + right && AllSpaces(right)
  {
    right := "";
    if s != "" && IsSpace(s[|s| - 1]) {
      var more := RightMeans(s[..|s| - 1]);
      right := more + [s[|s| - 1]];
    }
  }

  lemma StripTrimmed(s: string)
    requires Trimmed(s)
    ensures Strip(s) == s
  {
  }

  /** Text that starts with a visible character keeps it. */
  lemma StripKeepsFirst(s: string)
    requires s != "" && !IsSpace(s[0])
    ensures StripLeft(s) == s && Strip(s) != "" && Strip(s)[0] == s[0]
  {
    StripRightKeepsFirst(s);
  }

  lemma {:induction false} StripRightKeepsFirst(s: string)
    requires s != "" && !IsSpace(s[0])
    ensures StripRight(s) != "" && StripRight(s)[0] == s[0]
  {
    if IsSpace(s[|s| - 1]) {
      StripRightKeepsFirst(s[..|s| - 1]);
    }
  }

  /** `str.lower()`, for ASCII letters. */
  function Lower(s: string): string {
    seq(|s|, i requires 0 <= i < |s| => if 'A' <= s[i] <= 'Z' then 'a' + (s[i] - 'A') else s[i])
  }

  /** The capitals, U+0041 to U+005A, go up by 32; nothing else changes, so none is left. */
  lemma LowerMeans(s: string, i: nat)
    requires i < |s|
    ensures |Lower(s)| == |s| && !('A' <= Lower(s)[i] <= 'Z')
    ensures Lower(s)[i] as int == s[i] as int + if 65 <= s[i] as int <= 90 then 32 else 0
  {
  }

  // ----- Comma separated lists -----

  /** `",".join(items)`. */
  function JoinCommas(items: seq<string>): string {
    if items == [] then ""
    else if |items| == 1 then items[0]
    else items[0] + "," + JoinCommas(items[1..])
  }

  /** `s.split(",")`. */
  function SplitCommas(s: string): seq<string> {
    if s == "" then [""]
    else
      var rest := SplitCommas(s[1..]);
      if s[0] == ',' then [""] + rest
      else if rest == [] then [[s[0]]]
      else [[s[0]] + rest[0]] + rest[1..]
  }

  /** A further item is joined on behind a comma. */
  lemma {:induction false} JoinMeans(items: seq<string>, item: string)
    ensures JoinCommas([]) == "" && JoinCommas([item]) == item
    ensures items != [] ==> JoinCommas(items + [item]) == JoinCommas(items) + "," + item
  {
    if |items| == 1 {
      assert (items + [item])[1..] == [item];
    } else if items != [] {
      JoinMeans(items[1..], item);
      assert (items + [item])[1..] == items[1..] + [item];
    }
  }

  /** The pieces of a text joined again are the text. */
  lemma {:induction false} JoinSplit(s: string)
    ensures JoinCommas(SplitCommas(s)) == s
  {
    if s != "" {
      JoinSplit(s[1..]);
      SplitShape(s[1..]);
      var rest := SplitCommas(s[1..]);
      assert s == [s[0]] + s[1..];
      if s[0] == ',' {
        assert ([""] + rest)[1..] == rest;
      } else if |rest| > 1 {
        var parts := [[s[0]] + rest[0]] + rest[1..];
        assert parts[1..] == rest[1..];
      }
    }
  }

  lemma {:induction false} SplitShape(s: string)
    ensures |SplitCommas(s)| > 0
    ensures forall item :: item in SplitCommas(s) ==> ',' !in item
  {
    if s != "" {
      SplitShape(s[1..]);
      var rest := SplitCommas(s[1..]);
      assert forall item :: item in rest[1..] ==> item in rest;
      assert rest[0] in rest;
    }
  }

  lemma {:induction false} SplitHead(a: string, s: string)
    requires ',' !in a
    ensures |SplitCommas(s)| > 0
    ensures SplitCommas(a + s) == [a + SplitCommas(s)[0]] + SplitCommas(s)[1..]
  {
    SplitShape(s);
    var parts := SplitCommas(s);
    if a == "" {
      assert a + s == s && a + parts[0] == parts[0];
      assert parts == [parts[0]] + parts[1..];
    } else {
      SplitHead(a[1..], s);
      assert (a + s)[1..] == a[1..] + s;
      assert [a[0]] + (a[1..] + parts[0]) == a + parts[0];
    }
  }

  lemma SplitComma(s: string)
    ensures SplitCommas("," + s) == [""] + SplitCommas(s)
  {
    assert ("," + s)[1..] == s;
  }

  lemma {:induction false} SplitJoin(items: seq<string>)
    requires items != [] && forall item :: item in items ==> ',' !in item
    ensures SplitCommas(JoinCommas(items)) == items
  {
    assert items[0] in items;
    if |items| == 1 {
      SplitHead(items[0], "");
      assert items[0] + "" == items[0];
      assert items == [items[0]];
    } else {
      assert forall item :: item in items[1..] ==> item in items;
      SplitJoin(items[1..]);
      var rest := JoinCommas(items[1..]);
      SplitComma(rest);
      SplitHead(items[0], "," + rest);
      assert JoinCommas(items) == items[0] + ("," + rest);
      hide JoinCommas, SplitCommas;
      assert SplitCommas("," + rest)[1..] == items[1..];
      assert items[0] + "" == items[0] && items == [items[0]] + items[1..];
    }
  }
}
