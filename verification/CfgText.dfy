/** Predicates written out as text, and exactly when reading the text gives back the predicate. */
module CfgText {
  import opened Texts
  import opened CfgConditions
  import opened CfgLists

  function Group(head: string, texts: seq<string>): string {
    head + Join(texts) + ")"
  }

  function HeadOf(p: Pred): string
    requires !p.Atom?
  {
    if p.All? then "all(" else "any("
  }

  function Render(p: Pred): string {
    match p
    case Atom(name) => name
    case All(parts) => Group("all(", seq(|parts|, i requires 0 <= i < |parts| => Render(parts[i])))
    case Any(parts) => Group("any(", seq(|parts|, i requires 0 <= i < |parts| => Render(parts[i])))
  }

  function EachRendered(parts: seq<Pred>): (texts: seq<string>)
    ensures |texts| == |parts| && forall i :: 0 <= i < |parts| ==> texts[i] == Render(parts[i])
  {
    seq(|parts|, i requires 0 <= i < |parts| => Render(parts[i]))
  }

  lemma {:induction false} RenderOfGroup(p: Pred)
    requires !p.Atom?
    ensures Render(p) == Group(HeadOf(p), EachRendered(p.parts))
  {
    var parts := p.parts;
    assert EachRendered(parts) == seq(|parts|, i requires 0 <= i < |parts| => Render(parts[i]));
  }

  lemma {:induction false} GroupReads(head: string, inner: string)
    requires head == "any(" || head == "all("
    ensures var text := head + inner + ")";
            && (IsAny(text) <==> head == "any(") && (IsAll(text) <==> head == "all(") && Inner(text) == inner
            && text[0] == 'a'
  {
    var text := head + inner + ")";
    assert text[..4] == head && text[4..|text| - 1] == inner && head[0] == 'a';
  }

  /** A predicate whose text can be read: a simple one is not itself a list, and the texts of a list can
      be told apart. */
  ghost predicate Legible(p: Pred) {
    match p
    case Atom(name) => !IsAny(name) && !IsAll(name)
    case All(parts) => Apart(EachRendered(parts)) && forall i :: 0 <= i < |parts| ==> Legible(parts[i])
    case Any(parts) => Apart(EachRendered(parts)) && forall i :: 0 <= i < |parts| ==> Legible(parts[i])
  }

  lemma {:induction false} ParseOfText(p: Pred)
    requires !p.Atom?
    ensures var parsed := EachParsed(Parts(Join(EachRendered(p.parts))));
            Parse(Render(p)) == (if p.All? then All(parsed) else Any(parsed))
  {
    RenderOfGroup(p);
    GroupReads(HeadOf(p), Join(EachRendered(p.parts)));
    ParseOfGroup(Render(p));
  }

  lemma {:induction false} LegibleReadsBack(p: Pred)
    requires Legible(p)
    ensures Parse(Render(p)) == p
    decreases p
  {
    if !p.Atom? {
      ParseOfText(p);
      PartsOfJoin(EachRendered(p.parts));
      forall i | 0 <= i < |p.parts| ensures Parse(Render(p.parts[i])) == p.parts[i] {
        LegibleReadsBack(p.parts[i]);
      }
      assert EachParsed(EachRendered(p.parts)) == p.parts;
    }
  }

  // ---- the other way -----------------------------------------------------------------------

  predicate Comparable(a: string, b: string) {
    a <= b || b <= a
  }

  lemma {:induction false} ComparableAfter(first: string, a: string, b: string)
    requires Comparable(first + a, first + b)
    ensures Comparable(a, b)
  {
    assert (first + a)[|first|..] == a && (first + b)[|first|..] == b;
  }

  lemma {:induction false} StripRightIsPrefix(text: string)
    ensures StripRight(text) <= text
    decreases |text|
  {
    if text != "" && IsSpace(text[|text| - 1]) { StripRightIsPrefix(text[..|text| - 1]); }
  }

  lemma {:induction false} InnerOf(p: Pred, text: string)
    requires Parse(text) == p && !p.Atom?
    ensures IsAny(text) || IsAll(text)
    ensures text == HeadOf(p) + (Inner(text) + ")") && EachParsed(Parts(Inner(text))) == p.parts
  {
    ParseOfGroup(text);
    assert text == text[..4] + (text[4..|text| - 1] + [text[|text| - 1]]);
  }

  lemma {:induction false} RenderOpens(p: Pred)
    requires !p.Atom?
    ensures Render(p) == HeadOf(p) + (Join(EachRendered(p.parts)) + ")")
  {
    RenderOfGroup(p);
  }

  /** A text that starts a predicate's own, or that it starts, and reads as the predicate, is its own. */
  lemma {:induction false} ReadsAlikeIsAlike(p: Pred, text: string)
    requires Parse(text) == p && Comparable(text, Render(p))
    ensures text == Render(p)
    decreases p, 1, 0
  {
    if p.Atom? {
      ParseOfGroup(text);
    } else {
      InnerOf(p, text);
      RenderOpens(p);
      ComparableAfter(HeadOf(p), Inner(text) + ")", Join(EachRendered(p.parts)) + ")");
      assert p.parts[0..] == p.parts;
      ListsAlike(p, 0, Inner(text), "");
    }
  }

  /** How two texts stand to each other that are each followed by some character and are comparable. */
  lemma {:induction false} Standing(text: string, own: string, c: char, d: char, after: string, rest: string)
    requires Comparable(text + [c] + after, own + [d] + rest)
    ensures |text| == |own| ==> text == own
    ensures |text| > |own| ==> text == own + [d] + text[|own| + 1..]
    ensures |text| < |own| ==> text <= own
    ensures text != "" && own != "" ==> text[0] == own[0]
  {
    var a, b := text + [c] + after, own + [d] + rest;
    assert forall i :: 0 <= i < |a| && i < |b| ==> a[i] == b[i];
    assert forall i :: 0 <= i < |text| && i < |own| ==> text[i] == a[i] == b[i] == own[i];
    if |text| > |own| { assert text[|own|] == a[|own|] == b[|own|] == d; }
  }

  /** One element of a list, and what was read in its place, when both are followed by no space. */
  lemma {:induction false} ElementsAlike(p: Pred, text: string, c: char, d: char, after: string, rest: string)
    requires Parse(Strip(text)) == p && !IsSpace(c) && !IsSpace(d)
    requires Comparable(text + [c] + after, Render(p) + [d] + rest)
    ensures text == Render(p) && Strip(text) == text
    decreases p, 2, 0
  {
    var own := Render(p);
    Standing(text, own, c, d, after, rest);
    ParseOfGroup(Strip(text));
    if |text| == |own| {
      OwnTextIsTrimmed(p, Strip(text));
    } else if p.Atom? {
      if |text| > |own| { NeverStripsTo(own, d, text[|own| + 1..]); }
    } else {
      GroupsAlike(p, text, d);
    }
  }

  lemma {:induction false} GroupsAlike(p: Pred, text: string, d: char)
    requires Parse(Strip(text)) == p && !IsSpace(d) && !p.Atom?
    requires var own := Render(p);
             && (|text| > |own| ==> text == own + [d] + text[|own| + 1..])
             && (|text| < |own| ==> text <= own)
    ensures |text| == |Render(p)|
    decreases p, 1, 1
  {
    var own := Render(p);
    StartsWithoutSpace(p);
    ParseOfGroup(Strip(text));
    if |text| != |own| {
      assert text[0] == own[0] && StripLeft(text) == text;
      StripRightIsPrefix(text);
      if |text| > |own| { StripRightKeeps(own, d, text[|own| + 1..]); }
      ReadsAlikeIsAlike(p, Strip(text));
    }
  }

  lemma {:induction false} StartsWithoutSpace(p: Pred)
    requires !p.Atom?
    ensures Render(p) != "" && !IsSpace(Render(p)[0]) && Render(p)[|Render(p)| - 1] == ')'
  {
    RenderOfGroup(p);
    GroupReads(HeadOf(p), Join(EachRendered(p.parts)));
  }

  lemma {:induction false} OwnTextIsTrimmed(p: Pred, stripped: string)
    requires Parse(stripped) == p && stripped == Strip(Render(p))
    ensures Strip(Render(p)) == Render(p)
  {
    ParseOfGroup(stripped);
    if !p.Atom? { StartsWithoutSpace(p); }
  }

  lemma {:induction false} NeverStripsTo(text: string, d: char, rest: string)
    requires !IsSpace(d)
    ensures Strip(text + [d] + rest) != text
  {
    var whole := text + [d] + rest;
    if Strip(whole) == text {
      StrippedStarts(whole);
      assert whole[0] == if text == "" then d else text[0];
      assert StripLeft(whole) == whole;
      StripRightKeeps(text, d, rest);
    }
  }

  lemma {:induction false} NothingButSpace(inner: string, lead: string)
    requires PartsFrom(inner, 0, lead) == [] && Lead(lead)
    ensures inner == "" || IsSpace(inner[0])
  {
    if inner != "" && !IsSpace(inner[0]) {
      assert inner + "" == inner;
      if !NoBareComma(inner, 0) { BareCommaSplits(inner, lead, ""); }
      PartsAtEnd(inner, lead);
      assert StripLeft(inner) == inner && inner == "" + [inner[0]] + inner[1..];
      StripRightKeeps("", inner[0], inner[1..]);
    }
  }

  lemma {:induction false} FirstAndRest(inner: string, lead: string, before: string, after: string)
    requires Lead(lead) && inner == before + ("," + after) && NoBareComma(before, 0) && EndDepth(before, 0) == 0
    ensures PartsFrom(inner, 0, lead) == [Strip(before)] + PartsFrom(after, 0, "")
  {
    PartsPast(before, 0, "," + after, lead);
    PartsAtComma(after, lead + before);
    StripAfter(lead, before);
  }

  lemma {:induction false} SpaceIsLead(text: string)
    ensures PartsFrom(" " + text, 0, "") == PartsFrom(text, 0, " ")
  {
    assert (" " + text)[0] == ' ' && (" " + text)[1..] == text && "" + [' '] == " ";
  }

  /** The inside of a list that reads as some predicates, and is comparable to theirs, is theirs. */
  lemma {:induction false} ListsAlike(p: Pred, k: nat, inner: string, lead: string)
    requires !p.Atom? && k <= |p.parts| && Lead(lead)
    requires EachParsed(PartsFrom(inner, 0, lead)) == p.parts[k..]
    requires Comparable(inner + ")", Join(EachRendered(p.parts[k..])) + ")")
    ensures inner == Join(EachRendered(p.parts[k..]))
    decreases p, 0, |p.parts| - k
  {
    var texts, parts := EachRendered(p.parts[k..]), PartsFrom(inner, 0, lead);
    if texts == [] {
      NothingButSpace(inner, lead);
      assert (inner + ")")[0] == (Join(texts) + ")")[0];
    } else if NoBareComma(inner, 0) {
      PartsAtEnd(inner, lead);
      assert EachParsed(parts)[0] == p.parts[k];
      OnlyElementAlike(p.parts[k], inner);
    } else {
      var before, after := BareComma(inner, 0);
      FirstAndRest(inner, lead, before, after);
      assert EachParsed(parts)[0] == p.parts[k];
      if |texts| == 1 {
        LastElementEnds(p.parts[k], before, after);
      } else {
        FirstElementAlike(p, k, before, after);
        RestParsed(p, k, inner, lead, before, after);
        ListsAlike(p, k + 1, after[1..], " ");
        JoinedFrom(p, k);
        SeparatorIs(before, after);
      }
    }
  }

  lemma {:induction false} SeparatorIs(before: string, after: string)
    requires after != "" && after[0] == ' '
    ensures before + ("," + after) == before + (", " + after[1..])
  {
    assert "," + after == ", " + after[1..];
  }

  lemma {:induction false} AfterSeparator(before: string, after: string, rest: string)
    requires before + ("," + after) == before + (", " + rest) && after != ""
    ensures after[1..] == rest
  {
    var a, b := before + ("," + after), before + (", " + rest);
    assert a[|before| + 2..] == after[1..] && b[|before| + 2..] == rest;
  }

  lemma {:induction false} OnlyElementAlike(p: Pred, inner: string)
    requires Parse(Strip(inner)) == p && Comparable(inner + ")", Render(p) + ")")
    ensures inner == Render(p)
    decreases p, 3, 0
  {
    assert inner + ")" == inner + [')'] + "" && Render(p) + ")" == Render(p) + [')'] + "";
    ElementsAlike(p, inner, ')', ')', "", "");
  }

  lemma {:induction false} JoinedFrom(p: Pred, k: nat)
    requires !p.Atom? && k + 1 < |p.parts|
    ensures Join(EachRendered(p.parts[k..])) == Render(p.parts[k]) + (", " + Join(EachRendered(p.parts[k + 1..])))
  {
    var texts := EachRendered(p.parts[k..]);
    JoinFirst(texts);
    assert texts[1..] == EachRendered(p.parts[k + 1..]);
  }

  /** What follows the first comma of a list is read as the rest of it. */
  lemma {:induction false} RestParsed(p: Pred, k: nat, inner: string, lead: string, before: string, after: string)
    requires !p.Atom? && k + 1 < |p.parts| && Lead(lead) && after != "" && after[0] == ' '
    requires EachParsed(PartsFrom(inner, 0, lead)) == p.parts[k..]
    requires PartsFrom(inner, 0, lead) == [Strip(before)] + PartsFrom(after, 0, "")
    ensures PartsFrom(after, 0, "") == PartsFrom(after[1..], 0, " ")
    ensures EachParsed(PartsFrom(after[1..], 0, " ")) == p.parts[k + 1..]
  {
    assert after == " " + after[1..];
    SpaceIsLead(after[1..]);
    ParsedTail(Strip(before), PartsFrom(after[1..], 0, " "), p.parts[k..]);
    assert p.parts[k..][1..] == p.parts[k + 1..];
  }

  lemma {:induction false} ParsedTail(first: string, rest: seq<string>, each: seq<Pred>)
    requires EachParsed([first] + rest) == each
    ensures each != [] && each[0] == Parse(first) && EachParsed(rest) == each[1..]
  {
    assert |each| == |rest| + 1;
    forall i | 0 <= i < |rest| ensures each[1..][i] == EachParsed(rest)[i] {
      assert ([first] + rest)[i + 1] == rest[i];
    }
  }

  /** A list of one does not go on after its one element. */
  lemma {:induction false} LastElementEnds(p: Pred, before: string, after: string)
    requires Parse(Strip(before)) == p
    ensures !Comparable(before + ("," + after) + ")", Render(p) + ")")
    decreases p, 3, 0
  {
    var a, b := before + ("," + after) + ")", Render(p) + ")";
    if Comparable(a, b) {
      assert a == before + [','] + (after + ")") && b == Render(p) + [')'] + "";
      ElementsAlike(p, before, ',', ')', after + ")", "");
      CommaIsNoParenthesis(before, after + ")");
    }
  }

  lemma {:induction false} CommaIsNoParenthesis(text: string, rest: string)
    ensures !Comparable(text + [','] + rest, text + [')'] + "")
  {
    var a, b := text + [','] + rest, text + [')'] + "";
    assert a[|text|] != b[|text|];
  }

  /** The first element of a longer list is read in its own place, with the space after its comma. */
  lemma {:induction false} FirstElementAlike(p: Pred, k: nat, before: string, after: string)
    requires !p.Atom? && k + 1 < |p.parts| && Parse(Strip(before)) == p.parts[k]
    requires Comparable(before + ("," + after) + ")", Join(EachRendered(p.parts[k..])) + ")")
    ensures before == Render(p.parts[k]) && Strip(before) == before && after != "" && after[0] == ' '
    ensures Comparable(after[1..] + ")", Join(EachRendered(p.parts[k + 1..])) + ")")
    decreases p, 0, 0
  {
    var own, rest := Render(p.parts[k]), Join(EachRendered(p.parts[k + 1..]));
    JoinedFrom(p, k);
    AroundTheComma(before, after, own, rest);
    ElementsAlike(p.parts[k], before, ',', ',', after + ")", " " + rest + ")");
    ComparableAfter(before + [','], after + ")", " " + rest + ")");
    SpaceFollows(after, rest);
  }

  lemma {:induction false} AroundTheComma(before: string, after: string, own: string, rest: string)
    ensures before + ("," + after) + ")" == before + [','] + (after + ")")
    ensures own + (", " + rest) + ")" == own + [','] + (" " + rest + ")")
  {
  }

  lemma {:induction false} SpaceFollows(after: string, rest: string)
    requires Comparable(after + ")", " " + rest + ")")
    ensures after != "" && after[0] == ' ' && Comparable(after[1..] + ")", rest + ")")
  {
    assert (after + ")")[0] == (" " + rest + ")")[0] == ' ';
    assert after + ")" == " " + (after[1..] + ")") && " " + rest + ")" == " " + (rest + ")");
    ComparableAfter(" ", after[1..] + ")", rest + ")");
  }

  /** The first text read in a list of several is the first one written, and the rest is read on from there. */
  lemma {:induction false} FirstReadInPlace(p: Pred, k: nat, lead: string)
    requires !p.Atom? && k + 1 < |p.parts| && Lead(lead)
    requires EachParsed(PartsFrom(Join(EachRendered(p.parts[k..])), 0, lead)) == p.parts[k..]
    ensures var rest := Join(EachRendered(p.parts[k + 1..]));
            && PartsFrom(Join(EachRendered(p.parts[k..])), 0, lead) == [Render(p.parts[k])] + PartsFrom(rest, 0, " ")
            && EachParsed(PartsFrom(rest, 0, " ")) == p.parts[k + 1..]
  {
    var inner := Join(EachRendered(p.parts[k..]));
    SeveralHaveAComma(p, k, lead);
    var before, after := BareComma(inner, 0);
    FirstAndRest(inner, lead, before, after);
    ParsedTail(Strip(before), PartsFrom(after, 0, ""), p.parts[k..]);
    FirstElementAlike(p, k, before, after);
    RestParsed(p, k, inner, lead, before, after);
    JoinedFrom(p, k);
    AfterSeparator(before, after, Join(EachRendered(p.parts[k + 1..])));
  }

  lemma {:induction false} SeveralHaveAComma(p: Pred, k: nat, lead: string)
    requires !p.Atom? && k + 1 < |p.parts| && Lead(lead)
    requires EachParsed(PartsFrom(Join(EachRendered(p.parts[k..])), 0, lead)) == p.parts[k..]
    ensures !NoBareComma(Join(EachRendered(p.parts[k..])), 0)
  {
    if NoBareComma(Join(EachRendered(p.parts[k..])), 0) { PartsAtEnd(Join(EachRendered(p.parts[k..])), lead); }
  }

  lemma {:induction false} LastReadInPlace(p: Pred, lead: string)
    requires Lead(lead) && EachParsed(PartsFrom(Render(p), 0, lead)) == [p]
    ensures PartsFrom(Render(p), 0, lead) == [Render(p)]
  {
    var parts := PartsFrom(Render(p), 0, lead);
    assert EachParsed(parts)[0] == p;
    if NoBareComma(Render(p), 0) {
      PartsAtEnd(Render(p), lead);
      OwnTextIsTrimmed(p, parts[0]);
    } else {
      var before, after := BareComma(Render(p), 0);
      FirstAndRest(Render(p), lead, before, after);
      LastElementEnds(p, before, after);
    }
  }

  /** Where every text read in a list reads as the predicate written there, each is its text. */
  lemma {:induction false} ReadInPlace(p: Pred, k: nat, lead: string)
    requires !p.Atom? && k <= |p.parts| && Lead(lead)
    requires EachParsed(PartsFrom(Join(EachRendered(p.parts[k..])), 0, lead)) == p.parts[k..]
    ensures PartsFrom(Join(EachRendered(p.parts[k..])), 0, lead) == EachRendered(p.parts[k..])
    decreases |p.parts| - k
  {
    if k < |p.parts| {
      RenderedFrom(p, k);
      if k + 1 == |p.parts| {
        assert p.parts[k..] == [p.parts[k]];
        LastReadInPlace(p.parts[k], lead);
      } else {
        FirstReadInPlace(p, k, lead);
        ReadInPlace(p, k + 1, " ");
      }
    }
  }

  lemma {:induction false} RenderedFrom(p: Pred, k: nat)
    requires !p.Atom? && k < |p.parts|
    ensures EachRendered(p.parts[k..]) == [Render(p.parts[k])] + EachRendered(p.parts[k + 1..])
  {
  }

  lemma {:induction false} OnlyLegible(p: Pred)
    requires Parse(Render(p)) == p
    ensures Legible(p)
    decreases p
  {
    ParseOfGroup(Render(p));
    if !p.Atom? {
      ParseOfText(p);
      assert p.parts[0..] == p.parts;
      ReadInPlace(p, 0, "");
      PartsOfJoin(EachRendered(p.parts));
      forall i | 0 <= i < |p.parts| ensures Legible(p.parts[i]) {
        assert EachParsed(EachRendered(p.parts))[i] == p.parts[i];
        OnlyLegible(p.parts[i]);
      }
    }
  }

  /** Reading a written predicate gives back the predicate if and only if its texts can be told apart. */
  lemma {:induction false} ParseOfRender(p: Pred)
    ensures Parse(Render(p)) == p <==> Legible(p)
  {
    if Legible(p) { LegibleReadsBack(p); }
    if Parse(Render(p)) == p { OnlyLegible(p); }
  }

  /** A legible predicate's alternatives hold under exactly the assignments the predicate holds under. */
  lemma {:induction false} AlternativesOfRender(p: Pred, env: Assignment)
    requires Legible(p)
    ensures Holds(Alternatives(Render(p)), env) <==> Eval(p, env)
  {
    ParseOfRender(p);
    AlternativesKeepTheMeaning(Render(p), env);
  }

  // ---- plain predicates --------------------------------------------------------------------

  /** From a depth of parentheses, each closes one that is open, all are closed at the end, and a comma
      stands only inside them. */
  ghost predicate Closed(text: string, depth: nat)
    decreases |text|
  {
    if text == "" then depth == 0
    else if text[0] == '(' then Closed(text[1..], depth + 1)
    else if text[0] == ')' then depth > 0 && Closed(text[1..], depth - 1)
    else (text[0] == ',' ==> depth > 0) && Closed(text[1..], depth)
  }

  ghost predicate Plain(text: string) {
    text != "" && !IsSpace(text[0]) && !IsSpace(text[|text| - 1]) && Closed(text, 0)
  }

  ghost predicate PlainAtoms(p: Pred) {
    match p
    case Atom(name) => Plain(name) && !IsAny(name) && !IsAll(name)
    case All(parts) => forall i :: 0 <= i < |parts| ==> PlainAtoms(parts[i])
    case Any(parts) => forall i :: 0 <= i < |parts| ==> PlainAtoms(parts[i])
  }

  lemma {:induction false} ClosedIsWhole(text: string, depth: nat)
    requires Closed(text, depth)
    ensures NoBareComma(text, depth) && EndDepth(text, depth) == 0
    decreases |text|
  {
    if text != "" { ClosedIsWhole(text[1..], DepthAfter(depth, text[0])); }
  }

  lemma {:induction false} ClosedInside(text: string, depth: nat, rest: string, outer: nat)
    requires Closed(text, depth) && Closed(rest, outer)
    ensures Closed(text + rest, depth + outer)
    decreases |text|
  {
    if text == "" {
      assert text + rest == rest;
    } else {
      assert (text + rest)[1..] == text[1..] + rest && (text + rest)[0] == text[0];
      ClosedInside(text[1..], DepthAfter(depth, text[0]), rest, outer);
    }
  }

  lemma {:induction false} JoinCloses(texts: seq<string>)
    requires forall i :: 0 <= i < |texts| ==> Plain(texts[i])
    ensures Closed(Join(texts) + ")", 1)
    decreases |texts|
  {
    if texts == [] {
      assert Join(texts) + ")" == ")" && ")"[1..] == "";
    } else if |texts| == 1 {
      assert ")"[1..] == "";
      ClosedInside(texts[0], 0, ")", 1);
    } else {
      JoinCloses(texts[1..]);
      var rest := Join(texts[1..]) + ")";
      var text := ", " + rest;
      assert text[0] == ',' && text[1..] == " " + rest;
      assert (" " + rest)[0] == ' ' && (" " + rest)[1..] == rest;
      assert Closed(" " + rest, 1);
      ClosedInside(texts[0], 0, text, 1);
      assert Join(texts) + ")" == texts[0] + text;
    }
  }

  lemma {:induction false} HeadCloses(head: string, rest: string)
    requires (head == "any(" || head == "all(") && Closed(rest, 1)
    ensures Closed(head + rest, 0)
  {
    var t := head + rest;
    assert t[1..][1..][1..][1..] == rest;
    assert t[0] == 'a' && t[1..][0] == head[1] && t[1..][1..][0] == head[2] && t[1..][1..][1..][0] == '(';
    assert Closed(t[1..][1..][1..], 0);
    assert Closed(t[1..][1..], 0);
  }

  lemma {:induction false} PlainIsApart(texts: seq<string>)
    requires forall i :: 0 <= i < |texts| ==> Plain(texts[i])
    ensures Apart(texts)
  {
    forall i | 0 <= i < |texts|
      ensures Strip(texts[i]) == texts[i] && NoBareComma(texts[i], 0) && EndDepth(texts[i], 0) == 0
    {
      ClosedIsWhole(texts[i], 0);
    }
  }

  /** Simple predicates that are trimmed, closed in parentheses and free of bare commas are enough for any
      predicate over them to be legible. */
  lemma {:induction false} PlainIsLegible(p: Pred)
    requires PlainAtoms(p)
    ensures Legible(p) && Plain(Render(p))
    decreases p
  {
    if !p.Atom? {
      forall i | 0 <= i < |p.parts| ensures Legible(p.parts[i]) && Plain(Render(p.parts[i])) {
        PlainIsLegible(p.parts[i]);
      }
      PlainIsApart(EachRendered(p.parts));
      StartsWithoutSpace(p);
      RenderOpens(p);
      JoinCloses(EachRendered(p.parts));
      HeadCloses(HeadOf(p), Join(EachRendered(p.parts)) + ")");
    }
  }
}
