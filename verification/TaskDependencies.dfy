/**
  A task stores its dependency list as text. `confirm_flow` writes it, `parse_task_dependencies`
  reads it back before every dispatch decision.
 */
module TaskDependencies {
  import opened Wrappers
  import opened Ids
  import opened Sequences
  import opened Text

  function Texts(ids: seq<Id>): seq<string> {
    seq(|ids|, i requires 0 <= i < |ids| => ids[i].text)
  }

  /** `",".join(depends_on) or "none"`. */
  function Encode(deps: seq<Id>): string {
    var joined := JoinCommas(Texts(deps));
    if joined == "" then "none" else joined
  }

  /** Strip every item and drop the blank ones. */
  function Cleaned(items: seq<string>): seq<Id> {
    if items == [] then []
    else
      var item := Strip(items[0]);
      (if item != "" then [Id(item)] else []) + Cleaned(items[1..])
  }

  /** `parse_task_dependencies`. */
  function Parse(raw: Option<string>): seq<Id> {
    var value := Strip(match raw case None => "" case Some(s) => s);
    if value == "" || value == "none" then [] else Cleaned(SplitCommas(value))
  }

  /** What a list is written as: "none", or its ids with commas between them. */
  lemma EncodeMeans(deps: seq<Id>, d: Id)
    ensures Encode([]) == "none"
    ensures Encode([d]) == if d.text == "" then "none" else d.text
    ensures deps != [] && deps != [Id("")] ==> Encode(deps + [d]) == Encode(deps) + "," + d.text
  {
    assert Texts([]) == [] && Texts([d]) == [d.text];
    JoinMeans(Texts(deps), d.text);
    assert Texts(deps + [d]) == Texts(deps) + [d.text];
    if deps != [] && JoinCommas(Texts(deps)) == "" {
      assert Texts(deps)[0] == deps[0].text;
      assert deps == [Id("")];
    }
  }

  function StrippedIds(items: seq<string>): seq<Id> {
    seq(|items|, i requires 0 <= i < |items| => Id(Strip(items[i])))
  }

  /** Read are, in order, the pieces between the commas that are not blank; "none" reads as nothing. */
  lemma ParseMeans(raw: string) returns (items: seq<string>)
    ensures forall i :: 0 <= i < |items| ==> ',' !in items[i]
    ensures JoinCommas(items) == Strip(raw)
    ensures Parse(None) == []
    ensures Parse(Some(raw)) == if Strip(raw) == "none" then [] else Filter(StrippedIds(items), (id: Id) => id.text != "")
  {
    items := SplitCommas(Strip(raw));
    SplitShape(Strip(raw));
    JoinSplit(Strip(raw));
    forall i | 0 <= i < |items| ensures ',' !in items[i] { assert items[i] in items; }
    CleanedMeans(items);
    StripTrimmed("");
  }

  lemma {:induction false} CleanedMeans(items: seq<string>)
    ensures Cleaned(items) == Filter(StrippedIds(items), (id: Id) => id.text != "")
  {
    if items != [] {
      var shown := (id: Id) => id.text != "";
      CleanedMeans(items[1..]);
      var first := Id(Strip(items[0]));
      assert StrippedIds(items) == [first] + StrippedIds(items[1..]);
      FilterConcat([first], StrippedIds(items[1..]), shown);
      if shown(first) { FilterAll([first], shown); } else { FilterNone([first], shown); }
    }
  }

  /** An id that survives the text form. */
  predicate Clean(id: Id) {
    id.text != "" && Trimmed(id.text) && ',' !in id.text
  }

  ghost predicate AllClean(ids: seq<Id>) {
    forall i :: 0 <= i < |ids| ==> Clean(ids[i])
  }

  lemma {:induction false} CleanedIsClean(items: seq<string>)
    requires forall i :: 0 <= i < |items| ==> ',' !in items[i]
    ensures AllClean(Cleaned(items))
  {
    if items != [] {
      assert forall i :: 0 <= i < |items[1..]| ==> items[1..][i] == items[i + 1];
      CleanedIsClean(items[1..]);
      StripTrims(items[0]);
    }
  }

  /** Whatever the text, only clean ids come out. */
  lemma ParseIsClean(raw: Option<string>)
    ensures AllClean(Parse(raw))
  {
    var value := Strip(match raw case None => "" case Some(s) => s);
    SplitShape(value);
    var items := SplitCommas(value);
    forall i | 0 <= i < |items| ensures ',' !in items[i] { assert items[i] in items; }
    CleanedIsClean(items);
  }

  lemma {:induction false} CleanedTexts(ids: seq<Id>)
    requires AllClean(ids)
    ensures Cleaned(Texts(ids)) == ids
  {
    if ids != [] {
      assert Texts(ids)[1..] == Texts(ids[1..]);
      CleanedTexts(ids[1..]);
      StripTrimmed(ids[0].text);
      assert Texts(ids)[0] == ids[0].text;
      assert ids == [ids[0]] + ids[1..];
    }
  }

  lemma {:induction false} JoinIsTrimmed(ids: seq<Id>)
    requires AllClean(ids) && ids != []
    ensures JoinCommas(Texts(ids)) != "" && Trimmed(JoinCommas(Texts(ids)))
    ensures JoinCommas(Texts(ids))[0] == ids[0].text[0]
    ensures |ids| > 1 ==> ',' in JoinCommas(Texts(ids))
  {
    assert Texts(ids)[0] == ids[0].text;
    if |ids| > 1 {
      assert Texts(ids)[1..] == Texts(ids[1..]);
      JoinIsTrimmed(ids[1..]);
      var rest := JoinCommas(Texts(ids[1..]));
      var joined := ids[0].text + "," + rest;
      assert joined[|joined| - 1] == rest[|rest| - 1];
      assert joined[|ids[0].text|] == ',';
    }
  }

  /** Clean lists survive the text form, except the one list that reads as "no dependencies". */
  lemma RoundTripOfClean(ids: seq<Id>)
    requires AllClean(ids)
    ensures Parse(Some(Encode(ids))) == if ids == [Id("none")] then [] else ids
  {
    if ids == [] {
      StripTrimmed("none");
    } else {
      var texts := Texts(ids);
      JoinIsTrimmed(ids);
      var joined := JoinCommas(texts);
      StripTrimmed(joined);
      if joined == "none" {
        assert |ids| == 1 && texts[0] == joined;
      } else {
        assert ids == [Id("none")] ==> texts == ["none"];
        forall item | item in texts ensures ',' !in item {
          var i :| 0 <= i < |texts| && texts[i] == item;
          assert Clean(ids[i]);
        }
        SplitJoin(texts);
        CleanedTexts(ids);
      }
    }
  }

  /** Exactly which dependency lists come back as they were written. */
  lemma RoundTripIff(ids: seq<Id>)
    ensures Parse(Some(Encode(ids))) == ids <==> AllClean(ids) && ids != [Id("none")]
  {
    if AllClean(ids) {
      RoundTripOfClean(ids);
    } else {
      ParseIsClean(Some(Encode(ids)));
    }
  }
}
