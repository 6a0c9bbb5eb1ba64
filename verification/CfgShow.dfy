/** Conditions as messages show them, and what reading one of those gives back. */
module CfgShow {
  import opened Common
  import opened CfgConditions
  import opened CfgCanonical
  import opened CfgText

  // ---- sorting -----------------------------------------------------------------------------

  ghost function FirstOf<T(!new)>(items: set<T>, text: T -> string): (x: T)
    requires items != {}
    ensures x in items && forall y :: y in items ==> LexLe(Codes(text(x)), Codes(text(y)))
  {
    assert exists x :: x in items && forall y :: y in items ==> LexLe(Codes(text(x)), Codes(text(y))) by {
      var x := LeastExists(items, x => Codes(text(x)));
    }
    var x :| x in items && forall y :: y in items ==> LexLe(Codes(text(x)), Codes(text(y)));
    x
  }

  /** Some items in the ascending order of their texts; items of one text may come in either order. */
  ghost function Sorted<T(!new)>(items: set<T>, text: T -> string): seq<T>
    decreases |items|
  {
    if items == {} then [] else [FirstOf(items, text)] + Sorted(items - {FirstOf(items, text)}, text)
  }

  lemma {:induction false} SortedLists<T(!new)>(items: set<T>, text: T -> string)
    ensures |Sorted(items, text)| == |items| && forall x :: x in items <==> x in Sorted(items, text)
    decreases |items|
  {
    if items != {} {
      var x := FirstOf(items, text);
      SortedLists(items - {x}, text);
      assert items == (items - {x}) + {x};
    }
  }

  lemma {:induction false} SortedAscends<T(!new)>(items: set<T>, text: T -> string, i: nat, j: nat)
    requires i < j < |Sorted(items, text)|
    ensures LexLe(Codes(text(Sorted(items, text)[i])), Codes(text(Sorted(items, text)[j])))
    decreases |items|
  {
    var x := FirstOf(items, text);
    var rest := Sorted(items - {x}, text);
    assert Sorted(items, text)[j] == rest[j - 1];
    if i == 0 {
      SortedLists(items - {x}, text);
      assert rest[j - 1] in rest;
    } else {
      SortedAscends(items - {x}, text, i - 1, j - 1);
    }
  }

  /** The parts of a shown condition, and the names of each, stand in ascending order of their codes. */
  lemma {:induction false} ShownInOrder(alts: Condition, c: Conjunction, i: nat, j: nat)
    ensures i < j < |SortedNames(c)| ==> LexLe(Codes(SortedNames(c)[i]), Codes(SortedNames(c)[j]))
    ensures var parts := ConjunctionTexts(Sorted(Minimal(alts), ConjunctionText));
            i < j < |parts| ==> LexLe(Codes(parts[i]), Codes(parts[j]))
  {
    if i < j < |SortedNames(c)| { SortedAscends(c, Itself, i, j); }
    if i < j < |Sorted(Minimal(alts), ConjunctionText)| { SortedAscends(Minimal(alts), ConjunctionText, i, j); }
  }

  // ---- showing -----------------------------------------------------------------------------

  function Itself(x: string): string { x }

  ghost function SortedNames(c: Conjunction): seq<string> {
    Sorted(c, Itself)
  }

  ghost function ConjunctionText(c: Conjunction): string {
    var names := SortedNames(c);
    if |names| == 1 then names[0] else Group("all(", names)
  }

  ghost function ConjunctionTexts(listed: seq<Conjunction>): (texts: seq<string>)
    ensures |texts| == |listed| && forall i :: 0 <= i < |listed| ==> texts[i] == ConjunctionText(listed[i])
  {
    seq(|listed|, i requires 0 <= i < |listed| => ConjunctionText(listed[i]))
  }

  /** A condition as a message shows it. */
  ghost function ShowCondition(alts: Condition): string {
    var least := Minimal(alts);
    if {} in least then "always"
    else
      var parts := ConjunctionTexts(Sorted(least, ConjunctionText));
      if |parts| == 1 then parts[0] else Group("any(", parts)
  }

  // ---- the predicate that is shown ---------------------------------------------------------

  function Atoms(names: seq<string>): (atoms: seq<Pred>)
    ensures |atoms| == |names| && forall i :: 0 <= i < |names| ==> atoms[i] == Atom(names[i])
  {
    seq(|names|, i requires 0 <= i < |names| => Atom(names[i]))
  }

  ghost function ConjunctionPred(c: Conjunction): Pred {
    var names := SortedNames(c);
    if |names| == 1 then Atom(names[0]) else All(Atoms(names))
  }

  ghost function ConjunctionPreds(listed: seq<Conjunction>): (each: seq<Pred>)
    ensures |each| == |listed| && forall i :: 0 <= i < |listed| ==> each[i] == ConjunctionPred(listed[i])
  {
    seq(|listed|, i requires 0 <= i < |listed| => ConjunctionPred(listed[i]))
  }

  ghost function ShownPred(alts: Condition): Pred {
    var each := ConjunctionPreds(Sorted(Minimal(alts), ConjunctionText));
    if |each| == 1 then each[0] else Any(each)
  }

  lemma {:induction false} ConjunctionIsRendered(c: Conjunction)
    ensures ConjunctionText(c) == Render(ConjunctionPred(c))
  {
    var names := SortedNames(c);
    if |names| != 1 {
      RenderOfGroup(All(Atoms(names)));
      assert EachRendered(Atoms(names)) == names;
    }
  }

  lemma {:induction false} ShownIsRendered(alts: Condition)
    requires {} !in Minimal(alts)
    ensures ShowCondition(alts) == Render(ShownPred(alts))
  {
    var listed := Sorted(Minimal(alts), ConjunctionText);
    var each := ConjunctionPreds(listed);
    forall i | 0 <= i < |listed| ensures ConjunctionTexts(listed)[i] == Render(each[i]) {
      ConjunctionIsRendered(listed[i]);
    }
    if |each| != 1 {
      RenderOfGroup(Any(each));
      assert EachRendered(each) == ConjunctionTexts(listed);
    }
  }

  // ---- a predicate as alternatives ---------------------------------------------------------

  function Dnf(p: Pred): Condition {
    match p
    case Atom(name) => {{name}}
    case All(parts) => Multiply(seq(|parts|, i requires 0 <= i < |parts| => Dnf(parts[i])))
    case Any(parts) => Unite(seq(|parts|, i requires 0 <= i < |parts| => Dnf(parts[i])))
  }

  function EachDnf(parts: seq<Pred>): (each: seq<Condition>)
    ensures |each| == |parts| && forall i :: 0 <= i < |parts| ==> each[i] == Dnf(parts[i])
  {
    seq(|parts|, i requires 0 <= i < |parts| => Dnf(parts[i]))
  }

  lemma {:induction false} DnfOfGroup(p: Pred)
    requires !p.Atom?
    ensures Dnf(p) == if p.All? then Multiply(EachDnf(p.parts)) else Unite(EachDnf(p.parts))
  {
    var parts := p.parts;
    assert EachDnf(parts) == seq(|parts|, i requires 0 <= i < |parts| => Dnf(parts[i]));
  }

  /** Alternatives are read off the predicate a text stands for. */
  lemma {:induction false} AlternativesAreDnf(text: string)
    ensures Alternatives(text) == Dnf(Parse(text))
    decreases |text|
  {
    ParseOfGroup(text);
    if IsAny(text) || IsAll(text) {
      var parts := Parts(Inner(text));
      forall i | 0 <= i < |parts| ensures EachRead(parts)[i] == EachDnf(EachParsed(parts))[i] {
        AlternativesAreDnf(parts[i]);
      }
      assert EachRead(parts) == EachDnf(EachParsed(parts));
      if IsAny(text) { AlternativesOfAny(text); } else { AlternativesOfAll(text); }
      DnfOfGroup(Parse(text));
    }
  }

  lemma {:induction false} MultiplyOfAtoms(names: seq<string>)
    ensures Multiply(EachDnf(Atoms(names))) == {set x | x in names}
    decreases |names|
  {
    var each := EachDnf(Atoms(names));
    if names == [] {
      assert (set x | x in names) == {};
    } else {
      var n := |names| - 1;
      MultiplyOfAtoms(names[..n]);
      assert each[..n] == EachDnf(Atoms(names[..n]));
      PairwiseOfOne((set x | x in names[..n]), names[n]);
      assert names == names[..n] + [names[n]];
      assert (set x | x in names) == (set x | x in names[..n]) + {names[n]};
    }
  }

  lemma {:induction false} PairwiseOfOne(c: Conjunction, name: string)
    ensures Pairwise({c}, {{name}}) == {c + {name}}
  {
  }

  lemma {:induction false} ConjunctionIsItself(c: Conjunction)
    ensures Dnf(ConjunctionPred(c)) == {c}
  {
    var names := SortedNames(c);
    SortedLists(c, Itself);
    assert (set x | x in names) == c;
    if |names| == 1 {
      assert names == [names[0]] && (set x | x in names) == {names[0]};
    } else {
      DnfOfGroup(All(Atoms(names)));
      MultiplyOfAtoms(names);
    }
  }

  lemma {:induction false} UniteCollects(each: seq<Condition>, a: Conjunction)
    ensures a in Unite(each) <==> exists i :: 0 <= i < |each| && a in each[i]
    decreases |each|
  {
    if each != [] {
      var n := |each| - 1;
      UniteCollects(each[..n], a);
      assert forall i :: 0 <= i < n ==> each[..n][i] == each[i];
    }
  }

  lemma {:induction false} ListIsItsConjunctions(listed: seq<Conjunction>)
    ensures Unite(EachDnf(ConjunctionPreds(listed))) == set c | c in listed
  {
    var each := EachDnf(ConjunctionPreds(listed));
    forall i | 0 <= i < |listed| ensures each[i] == {listed[i]} { ConjunctionIsItself(listed[i]); }
    forall a ensures a in Unite(each) <==> a in listed { UniteCollects(each, a); }
  }

  lemma {:induction false} ShownIsMinimal(alts: Condition)
    ensures Dnf(ShownPred(alts)) == Minimal(alts)
  {
    var listed := Sorted(Minimal(alts), ConjunctionText);
    SortedLists(Minimal(alts), ConjunctionText);
    assert (set c | c in listed) == Minimal(alts);
    if |listed| == 1 {
      ConjunctionIsItself(listed[0]);
      assert listed == [listed[0]];
    } else {
      DnfOfGroup(Any(ConjunctionPreds(listed)));
      ListIsItsConjunctions(listed);
    }
  }

  /** A condition that is not always true reads back from what is shown of it as the very predicate shown
      if and only if that predicate is legible, and then as its minimal set; `always` is shown for the
      others. */
  lemma {:induction false} ShownConditionReadsBack(alts: Condition)
    ensures {} in alts ==> ShowCondition(alts) == "always"
    ensures {} !in alts ==> (Parse(ShowCondition(alts)) == ShownPred(alts) <==> Legible(ShownPred(alts)))
    ensures {} !in alts && Legible(ShownPred(alts)) ==> Alternatives(ShowCondition(alts)) == Minimal(alts)
  {
    AlwaysIsTheEmptyConjunction(alts);
    if {} !in alts {
      ShownIsRendered(alts);
      ParseOfRender(ShownPred(alts));
      AlternativesAreDnf(ShowCondition(alts));
      ShownIsMinimal(alts);
    }
  }

  /** Both conditions are always true, or neither is and both are shown legibly. */
  ghost predicate ShownTellingly(x: Condition, y: Condition) {
    if {} in x then {} in y else {} !in y && Legible(ShownPred(x)) && Legible(ShownPred(y))
  }

  /** Equivalent conditions are shown as one text; and where each is always true, or shown legibly and not
      as `always` is, one text means they are equivalent. */
  lemma {:induction false} ShownAlikeIsEquivalent(x: Condition, y: Condition)
    ensures Equivalent(x, y) ==> ShowCondition(x) == ShowCondition(y)
    ensures ShowCondition(x) == ShowCondition(y) && ShownTellingly(x, y) ==> Equivalent(x, y)
  {
    ShownConditionReadsBack(x);
    ShownConditionReadsBack(y);
    MinimalIsCanonical(x, y);
    AlwaysIsTheEmptyConjunction(x);
    AlwaysIsTheEmptyConjunction(y);
  }
}
