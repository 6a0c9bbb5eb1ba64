/** The conditions code is compiled under: `cfg` predicates read from text into sets of conjunctions, and
    the minimal set of conjunctions, which is one and the same for equivalent conditions. */
module CfgConditions {
  import opened Texts

  /** A conjunction is the predicates it names; a condition is the conjunctions any of which is enough. */
  type Conjunction = set<string>
  type Condition = set<Conjunction>

  // ---- reading text ------------------------------------------------------------------------

  function DepthAfter(depth: int, c: char): int {
    if c == '(' then depth + 1 else if c == ')' then depth - 1 else depth
  }

  /** The parts of a list still to read, with `cur` read of the first of them. */
  function PartsFrom(text: string, depth: int, cur: string): (parts: seq<string>)
    ensures forall part :: part in parts ==> |part| <= |cur| + |text|
    decreases |text|
  {
    if text == "" then (if Strip(cur) != "" then [Strip(cur)] else [])
    else
      var d := DepthAfter(depth, text[0]);
      if text[0] == ',' && d == 0 then [Strip(cur)] + PartsFrom(text[1..], d, "")
      else PartsFrom(text[1..], d, cur + [text[0]])
  }

  function Parts(text: string): (parts: seq<string>)
    ensures forall part :: part in parts ==> |part| <= |text|
  {
    PartsFrom(text, 0, "")
  }

  method TopLevelParts(text: string) returns (parts: seq<string>)
    ensures parts == Parts(text)
  {
    var depth, cur := 0, "";
    parts := [];
    for i := 0 to |text|
      invariant Parts(text) == parts + PartsFrom(text[i..], depth, cur)
    {
      var ch := text[i];
      assert text[i..][0] == ch && text[i..][1..] == text[i + 1..];
      if ch == '(' {
        depth := depth + 1;
      } else if ch == ')' {
        depth := depth - 1;
      }
      if ch == ',' && depth == 0 {
        parts := parts + [Strip(cur)];
        cur := "";
      } else {
        cur := cur + [ch];
      }
    }
    if Strip(cur) != "" {
      parts := parts + [Strip(cur)];
    }
  }

  predicate StartsAndEnds(text: string, head: string) {
    |head| < |text| && text[..|head|] == head && text[|text| - 1] == ')'
  }

  predicate IsAny(text: string) { StartsAndEnds(text, "any(") }
  predicate IsAll(text: string) { StartsAndEnds(text, "all(") }

  function Inner(text: string): (inner: string)
    requires IsAny(text) || IsAll(text)
    ensures |inner| < |text|
  {
    text[4..|text| - 1]
  }

  // ---- sets of conjunctions ----------------------------------------------------------------

  function Pairwise(x: Condition, y: Condition): Condition {
    set a, b | a in x && b in y :: a + b
  }

  function Unite(each: seq<Condition>): Condition {
    if each == [] then {} else Unite(each[..|each| - 1]) + each[|each| - 1]
  }

  function Multiply(each: seq<Condition>): Condition {
    if each == [] then {{}} else Pairwise(Multiply(each[..|each| - 1]), each[|each| - 1])
  }

  /** A predicate's text as the conjunctions any of which is enough for it. */
  function Alternatives(text: string): Condition
    decreases |text|
  {
    if IsAny(text) then
      var parts := Parts(Inner(text));
      Unite(seq(|parts|, i requires 0 <= i < |parts| => Alternatives(parts[i])))
    else if IsAll(text) then
      var parts := Parts(Inner(text));
      Multiply(seq(|parts|, i requires 0 <= i < |parts| => Alternatives(parts[i])))
    else {{text}}
  }

  function EachRead(parts: seq<string>): (each: seq<Condition>)
    ensures |each| == |parts| && forall i :: 0 <= i < |parts| ==> each[i] == Alternatives(parts[i])
  {
    seq(|parts|, i requires 0 <= i < |parts| => Alternatives(parts[i]))
  }

  lemma {:induction false} AlternativesOfAny(text: string)
    requires IsAny(text)
    ensures Alternatives(text) == Unite(EachRead(Parts(Inner(text))))
  {
    var parts := Parts(Inner(text));
    assert EachRead(parts) == seq(|parts|, i requires 0 <= i < |parts| => Alternatives(parts[i]));
  }

  lemma {:induction false} AlternativesOfAll(text: string)
    requires IsAll(text)
    ensures Alternatives(text) == Multiply(EachRead(Parts(Inner(text))))
  {
    var parts := Parts(Inner(text));
    assert EachRead(parts) == seq(|parts|, i requires 0 <= i < |parts| => Alternatives(parts[i]));
  }

  method ReadAlternatives(text: string) returns (out: Condition)
    ensures out == Alternatives(text)
    decreases |text|, 1
  {
    if IsAny(text) {
      AlternativesOfAny(text);
      out := ReadAny(text);
    } else if IsAll(text) {
      AlternativesOfAll(text);
      out := ReadAll(text);
    } else {
      out := {{text}};
    }
  }

  method ReadAny(text: string) returns (out: Condition)
    requires IsAny(text)
    ensures out == Unite(EachRead(Parts(Inner(text))))
    decreases |text|, 0
  {
    var parts := TopLevelParts(Inner(text));
    ghost var each := EachRead(parts);
    out := {};
    for i := 0 to |parts|
      invariant out == Unite(each[..i])
    {
      var next := ReadAlternatives(parts[i]);
      assert each[..i + 1][..i] == each[..i];
      out := out + next;
    }
    assert each[..|parts|] == each;
  }

  method ReadAll(text: string) returns (out: Condition)
    requires IsAll(text)
    ensures out == Multiply(EachRead(Parts(Inner(text))))
    decreases |text|, 0
  {
    var parts := TopLevelParts(Inner(text));
    ghost var each := EachRead(parts);
    out := {{}};
    for i := 0 to |parts|
      invariant out == Multiply(each[..i])
    {
      var next := ReadAlternatives(parts[i]);
      assert each[..i + 1][..i] == each[..i];
      out := Pairwise(out, next);
    }
    assert each[..|parts|] == each;
  }

  // ---- what a condition means --------------------------------------------------------------

  /** An assignment is the simple predicates that hold under it. */
  type Assignment = iset<string>

  ghost predicate Enough(a: Conjunction, env: Assignment) {
    forall x :: x in a ==> x in env
  }

  ghost predicate Holds(alts: Condition, env: Assignment) {
    exists a :: a in alts && Enough(a, env)
  }

  ghost predicate Equivalent(x: Condition, y: Condition) {
    forall env: Assignment :: Holds(x, env) <==> Holds(y, env)
  }

  /** A predicate as the language defines it; a simple one is whatever is neither `any` nor `all`. */
  datatype Pred = Atom(name: string) | All(parts: seq<Pred>) | Any(parts: seq<Pred>)

  ghost predicate Eval(p: Pred, env: Assignment) {
    match p
    case Atom(name) => name in env
    case All(parts) => forall i :: 0 <= i < |parts| ==> Eval(parts[i], env)
    case Any(parts) => exists i :: 0 <= i < |parts| && Eval(parts[i], env)
  }

  function Parse(text: string): Pred
    decreases |text|
  {
    if IsAny(text) then
      var parts := Parts(Inner(text));
      Any(seq(|parts|, i requires 0 <= i < |parts| => Parse(parts[i])))
    else if IsAll(text) then
      var parts := Parts(Inner(text));
      All(seq(|parts|, i requires 0 <= i < |parts| => Parse(parts[i])))
    else Atom(text)
  }

  lemma {:induction false} PairwiseMeansBoth(x: Condition, y: Condition, env: Assignment)
    ensures Holds(Pairwise(x, y), env) <==> Holds(x, env) && Holds(y, env)
  {
    if Holds(x, env) && Holds(y, env) {
      var a :| a in x && Enough(a, env);
      var b :| b in y && Enough(b, env);
      assert a + b in Pairwise(x, y) && Enough(a + b, env);
    }
    if Holds(Pairwise(x, y), env) {
      var c :| c in Pairwise(x, y) && Enough(c, env);
      var a, b :| a in x && b in y && c == a + b;
      assert Enough(a, env) && Enough(b, env);
    }
  }

  lemma {:induction false} UniteMeansSome(each: seq<Condition>, env: Assignment)
    ensures Holds(Unite(each), env) <==> exists i :: 0 <= i < |each| && Holds(each[i], env)
  {
    if each != [] {
      var n := |each| - 1;
      UniteMeansSome(each[..n], env);
      assert forall i :: 0 <= i < n ==> each[..n][i] == each[i];
      assert Holds(Unite(each), env) <==> Holds(Unite(each[..n]), env) || Holds(each[n], env);
    }
  }

  lemma {:induction false} MultiplyMeansAll(each: seq<Condition>, env: Assignment)
    ensures Holds(Multiply(each), env) <==> forall i :: 0 <= i < |each| ==> Holds(each[i], env)
  {
    if each == [] {
      assert {} in Multiply(each) && Enough({}, env);
    } else {
      var n := |each| - 1;
      MultiplyMeansAll(each[..n], env);
      assert forall i :: 0 <= i < n ==> each[..n][i] == each[i];
      PairwiseMeansBoth(Multiply(each[..n]), each[n], env);
    }
  }

  function EachParsed(parts: seq<string>): (each: seq<Pred>)
    ensures |each| == |parts| && forall i :: 0 <= i < |parts| ==> each[i] == Parse(parts[i])
  {
    seq(|parts|, i requires 0 <= i < |parts| => Parse(parts[i]))
  }

  lemma {:induction false} ParseOfGroup(text: string)
    ensures IsAny(text) ==> Parse(text) == Any(EachParsed(Parts(Inner(text))))
    ensures IsAll(text) ==> Parse(text) == All(EachParsed(Parts(Inner(text))))
  {
    if IsAny(text) || IsAll(text) {
      var parts := Parts(Inner(text));
      assert EachParsed(parts) == seq(|parts|, i requires 0 <= i < |parts| => Parse(parts[i]));
    }
  }

  /** Reading any text as alternatives preserves its meaning under every assignment. */
  lemma {:induction false} AlternativesKeepTheMeaning(text: string, env: Assignment)
    ensures Holds(Alternatives(text), env) <==> Eval(Parse(text), env)
    decreases |text|, 1
  {
    ParseOfGroup(text);
    if IsAny(text) {
      AlternativesOfAny(text);
      var parts := Parts(Inner(text));
      PartsKeepTheMeaning(text, parts, env);
      UniteMeansSome(EachRead(parts), env);
      assert Eval(Any(EachParsed(parts)), env) <==> exists i :: 0 <= i < |parts| && Eval(EachParsed(parts)[i], env);
    } else if IsAll(text) {
      AlternativesOfAll(text);
      var parts := Parts(Inner(text));
      PartsKeepTheMeaning(text, parts, env);
      MultiplyMeansAll(EachRead(parts), env);
      assert Eval(All(EachParsed(parts)), env) <==> forall i :: 0 <= i < |parts| ==> Eval(EachParsed(parts)[i], env);
    } else {
      assert {text} in Alternatives(text) && (Enough({text}, env) <==> text in env);
    }
  }

  lemma {:induction false} PartsKeepTheMeaning(text: string, parts: seq<string>, env: Assignment)
    requires forall part :: part in parts ==> |part| < |text|
    ensures forall i :: 0 <= i < |parts| ==> (Holds(EachRead(parts)[i], env) <==> Eval(EachParsed(parts)[i], env))
    decreases |text|, 0
  {
    forall i | 0 <= i < |parts|
      ensures Holds(EachRead(parts)[i], env) <==> Eval(EachParsed(parts)[i], env)
    {
      AlternativesKeepTheMeaning(parts[i], env);
    }
  }
}
