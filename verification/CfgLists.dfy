/** Lists of predicates written out, and exactly when splitting one gives back what was written. */
module CfgLists {
  import opened Texts
  import opened CfgConditions

  function Join(texts: seq<string>): string {
    if texts == [] then "" else if |texts| == 1 then texts[0] else texts[0] + ", " + Join(texts[1..])
  }

  /** How deep in parentheses a text leaves its reader. */
  function EndDepth(text: string, depth: int): int
    decreases |text|
  {
    if text == "" then depth else EndDepth(text[1..], DepthAfter(depth, text[0]))
  }

  /** No comma of a text stands at depth nought. */
  predicate NoBareComma(text: string, depth: int)
    decreases |text|
  {
    text == "" || (!(text[0] == ',' && depth == 0) && NoBareComma(text[1..], DepthAfter(depth, text[0])))
  }

  /** Texts that can be told apart in a list: none has space around it or a bare comma, each but the last
      closes what it opens, and the last is not empty. */
  predicate Apart(texts: seq<string>) {
    forall i :: 0 <= i < |texts| ==>
      && Strip(texts[i]) == texts[i] && NoBareComma(texts[i], 0)
      && (if i == |texts| - 1 then texts[i] != "" else EndDepth(texts[i], 0) == 0)
  }

  // ---- stripping ---------------------------------------------------------------------------

  lemma {:induction false} StripLead(text: string)
    ensures Strip(" " + text) == Strip(text)
  {
    assert (" " + text)[1..] == text && (" " + text)[0] == ' ';
  }

  predicate Lead(lead: string) { lead == "" || lead == " " }

  lemma {:induction false} StripAfter(lead: string, text: string)
    requires Lead(lead)
    ensures Strip(lead + text) == Strip(text)
  {
    StripLead(text);
    assert lead == "" ==> lead + text == text;
  }

  /** A text followed by a comma never strips to the text itself. */
  lemma {:induction false} NeverStripsBack(lead: string, text: string, rest: string)
    requires Lead(lead)
    ensures Strip(lead + text + "," + rest) != text
  {
    var whole := text + "," + rest;
    assert lead + text + "," + rest == lead + whole;
    StripAfter(lead, whole);
    if Strip(whole) == text {
      StrippedStarts(whole);
      assert whole[0] == if text == "" then ',' else text[0];
      assert StripLeft(whole) == whole;
      assert "," == [','];
      StripRightKeeps(text, ',', rest);
    }
  }

  // ---- splitting ---------------------------------------------------------------------------

  /** Reading past a text without a bare comma leaves it in what is being read of the current part. */
  lemma {:induction false} PartsPast(text: string, depth: int, rest: string, cur: string)
    requires NoBareComma(text, depth)
    ensures PartsFrom(text + rest, depth, cur) == PartsFrom(rest, EndDepth(text, depth), cur + text)
    decreases |text|
  {
    if text == "" {
      assert text + rest == rest && cur + text == cur;
    } else {
      var d := DepthAfter(depth, text[0]);
      assert (text + rest)[1..] == text[1..] + rest && (text + rest)[0] == text[0];
      PartsPast(text[1..], d, rest, cur + [text[0]]);
      assert cur + [text[0]] + text[1..] == cur + text;
    }
  }

  lemma {:induction false} PartsAtComma(rest: string, cur: string)
    ensures PartsFrom("," + rest, 0, cur) == [Strip(cur)] + PartsFrom(rest, 0, "")
  {
    assert ("," + rest)[0] == ',' && ("," + rest)[1..] == rest;
  }

  lemma {:induction false} PartsAtSeparator(rest: string, cur: string)
    ensures PartsFrom(", " + rest, 0, cur) == [Strip(cur)] + PartsFrom(rest, 0, " ")
  {
    assert ", " + rest == "," + (" " + rest);
    PartsAtComma(" " + rest, cur);
    assert (" " + rest)[0] == ' ' && (" " + rest)[1..] == rest && "" + [' '] == " ";
  }

  lemma {:induction false} PartsAtEnd(text: string, lead: string)
    requires Lead(lead) && NoBareComma(text, 0)
    ensures PartsFrom(text, 0, lead) == if Strip(text) != "" then [Strip(text)] else []
  {
    PartsPast(text, 0, "", lead);
    assert text + "" == text;
    StripAfter(lead, text);
  }

  lemma {:induction false} FirstOfMore(text: string, lead: string, rest: string)
    requires Lead(lead) && NoBareComma(text, 0) && EndDepth(text, 0) == 0
    ensures PartsFrom(text + (", " + rest), 0, lead) == [Strip(text)] + PartsFrom(rest, 0, " ")
  {
    PartsPast(text, 0, ", " + rest, lead);
    PartsAtSeparator(rest, lead + text);
    StripAfter(lead, text);
  }

  lemma {:induction false} JoinFirst(texts: seq<string>)
    requires |texts| > 1
    ensures Join(texts) == texts[0] + (", " + Join(texts[1..]))
  {
  }

  /** Texts that can be told apart are what splitting their list gives back. */
  lemma {:induction false} ApartIsEnough(texts: seq<string>, lead: string)
    requires Apart(texts) && Lead(lead)
    ensures PartsFrom(Join(texts), 0, lead) == texts
    decreases |texts|
  {
    if texts == [] {
      PartsAtEnd("", lead);
    } else if |texts| == 1 {
      PartsAtEnd(texts[0], lead);
    } else {
      JoinFirst(texts);
      FirstOfMore(texts[0], lead, Join(texts[1..]));
      ApartIsEnough(texts[1..], " ");
    }
  }

  // ---- the other way -----------------------------------------------------------------------

  lemma {:induction false} BareComma(text: string, depth: int) returns (before: string, after: string)
    requires !NoBareComma(text, depth)
    ensures text == before + ("," + after) && NoBareComma(before, depth) && EndDepth(before, depth) == 0
    decreases |text|
  {
    if text[0] == ',' && depth == 0 {
      before, after := "", text[1..];
    } else {
      before, after := BareComma(text[1..], DepthAfter(depth, text[0]));
      before := [text[0]] + before;
      assert before[1..] == text[1..][..|before| - 1];
    }
  }

  /** A text with a bare comma in it is never the first part. */
  lemma {:induction false} BareCommaSplits(text: string, lead: string, rest: string)
    requires Lead(lead) && !NoBareComma(text, 0)
    ensures var parts := PartsFrom(text + rest, 0, lead); parts != [] && parts[0] != text
  {
    var before, after := BareComma(text, 0);
    assert text + rest == before + ("," + (after + rest));
    PartsPast(before, 0, "," + (after + rest), lead);
    PartsAtComma(after + rest, lead + before);
    StripAfter(lead, before);
  }

  /** The first part is what has been read of it with some more of the text. */
  lemma {:induction false} FirstPartIs(rest: string, depth: int, cur: string) returns (more: string)
    ensures var parts := PartsFrom(rest, depth, cur); parts != [] ==> parts[0] == Strip(cur + more)
    decreases |rest|
  {
    more := "";
    assert cur + more == cur;
    if rest != "" && !(rest[0] == ',' && depth == 0) {
      var tail := FirstPartIs(rest[1..], DepthAfter(depth, rest[0]), cur + [rest[0]]);
      more := [rest[0]] + tail;
      assert cur + more == cur + [rest[0]] + tail;
    }
  }

  /** A text that leaves a parenthesis open is never the first part of a longer list. */
  lemma {:induction false} OpenTextRunsOn(text: string, lead: string, rest: string)
    requires Lead(lead) && NoBareComma(text, 0) && EndDepth(text, 0) != 0
    ensures var parts := PartsFrom(text + (", " + rest), 0, lead); parts != [] ==> parts[0] != text
  {
    var d, cur := EndDepth(text, 0), lead + text;
    PartsPast(text, 0, ", " + rest, lead);
    assert (", " + rest)[0] == ',' && (", " + rest)[1..] == " " + rest;
    assert PartsFrom(", " + rest, d, cur) == PartsFrom(" " + rest, d, cur + [',']);
    var more := FirstPartIs(" " + rest, d, cur + [',']);
    assert cur + [','] + more == lead + text + "," + more;
    NeverStripsBack(lead, text, more);
  }

  lemma {:induction false} OnlyApart(texts: seq<string>, lead: string)
    requires PartsFrom(Join(texts), 0, lead) == texts && Lead(lead)
    ensures Apart(texts)
    decreases |texts|
  {
    if |texts| == 1 {
      OnlyOneApart(texts[0], lead);
    } else if |texts| > 1 {
      var text, rest := texts[0], Join(texts[1..]);
      JoinFirst(texts);
      FirstIsApart(text, lead, rest);
      FirstOfMore(text, lead, rest);
      assert texts == [text] + texts[1..];
      OnlyApart(texts[1..], " ");
      assert forall i :: 0 < i < |texts| ==> texts[i] == texts[1..][i - 1];
    }
  }

  lemma {:induction false} OnlyOneApart(text: string, lead: string)
    requires PartsFrom(text, 0, lead) == [text] && Lead(lead)
    ensures text != "" && Strip(text) == text && NoBareComma(text, 0)
  {
    assert text + "" == text;
    if !NoBareComma(text, 0) { BareCommaSplits(text, lead, ""); }
    PartsAtEnd(text, lead);
  }

  lemma {:induction false} FirstIsApart(text: string, lead: string, rest: string)
    requires Lead(lead)
    requires var parts := PartsFrom(text + (", " + rest), 0, lead); parts != [] && parts[0] == text
    ensures NoBareComma(text, 0) && EndDepth(text, 0) == 0 && Strip(text) == text
  {
    if !NoBareComma(text, 0) { BareCommaSplits(text, lead, ", " + rest); }
    if EndDepth(text, 0) != 0 { OpenTextRunsOn(text, lead, rest); }
    FirstOfMore(text, lead, rest);
  }

  /** Splitting a joined list gives back the list if and only if its texts can be told apart. */
  lemma {:induction false} PartsOfJoin(texts: seq<string>)
    ensures Parts(Join(texts)) == texts <==> Apart(texts)
  {
    if Apart(texts) { ApartIsEnough(texts, ""); }
    if Parts(Join(texts)) == texts { OnlyApart(texts, ""); }
  }

  lemma {:induction false} TailLast(first: string, rest: string, tail: string)
    ensures first + (", " + rest) + tail == first + (", " + (rest + tail))
  {
  }

  lemma {:induction false} OneAndAComma(text: string, lead: string, after: string)
    requires Strip(text) == text && NoBareComma(text, 0) && EndDepth(text, 0) == 0 && Lead(lead) && Lead(after)
    ensures PartsFrom(text + ("," + after), 0, lead) == [text]
  {
    PartsPast(text, 0, "," + after, lead);
    PartsAtComma(after, lead + text);
    StripAfter(lead, text);
    PartsAtEnd(after, "");
    StripAfter(after, "");
    assert after + "" == after;
  }

  /** A comma at the end of a list, and a space after it, are not part of it. */
  lemma {:induction false} TrailingComma(texts: seq<string>, lead: string, after: string)
    requires Apart(texts) && texts != [] && EndDepth(texts[|texts| - 1], 0) == 0 && Lead(lead) && Lead(after)
    ensures PartsFrom(Join(texts) + ("," + after), 0, lead) == texts
    decreases |texts|
  {
    if |texts| == 1 {
      OnlyAndAComma(texts, lead, after);
    } else {
      RestApart(texts);
      TrailingComma(texts[1..], " ", after);
      MoreAndAComma(texts, lead, after);
    }
  }

  lemma {:induction false} OnlyAndAComma(texts: seq<string>, lead: string, after: string)
    requires |texts| == 1 && Apart(texts) && EndDepth(texts[0], 0) == 0 && Lead(lead) && Lead(after)
    ensures PartsFrom(Join(texts) + ("," + after), 0, lead) == texts
  {
    OneAndAComma(texts[0], lead, after);
    assert texts == [texts[0]];
  }

  lemma {:induction false} MoreAndAComma(texts: seq<string>, lead: string, after: string)
    requires |texts| > 1 && Lead(lead)
    requires Strip(texts[0]) == texts[0] && NoBareComma(texts[0], 0) && EndDepth(texts[0], 0) == 0
    requires PartsFrom(Join(texts[1..]) + ("," + after), 0, " ") == texts[1..]
    ensures PartsFrom(Join(texts) + ("," + after), 0, lead) == texts
  {
    var rest := Join(texts[1..]);
    JoinFirst(texts);
    TailLast(texts[0], rest, "," + after);
    FirstOfMore(texts[0], lead, rest + ("," + after));
  }

  lemma {:induction false} RestApart(texts: seq<string>)
    requires Apart(texts) && |texts| > 1
    ensures Apart(texts[1..]) && texts[1..][|texts| - 2] == texts[|texts| - 1]
    ensures Strip(texts[0]) == texts[0] && NoBareComma(texts[0], 0) && EndDepth(texts[0], 0) == 0
  {
    assert forall i :: 0 <= i < |texts| - 1 ==> texts[1..][i] == texts[i + 1];
  }

  /** A comma outside parentheses always splits, inside a quoted value too: `feature="a,b"` is not one part
      but the two `feature="a` and `b"`. */
  lemma {:induction false} CommaAlwaysSplits(left: string, right: string)
    requires NoBareComma(left, 0) && EndDepth(left, 0) == 0
    ensures Parts(left + ("," + right)) == [Strip(left)] + Parts(right)
  {
    PartsPast(left, 0, "," + right, "");
    assert "" + left == left;
    PartsAtComma(right, left);
  }
}
