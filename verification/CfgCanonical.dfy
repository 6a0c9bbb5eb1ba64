/** Minimal conditions are canonical: comparing them decides whether two conditions are equivalent. */
module CfgCanonical {
  import opened CfgConditions

  // ---- a conjunction of predicates ---------------------------------------------------------

  /** A conjunction of predicates, each of which may itself be a list, as alternatives. */
  ghost function Expanded(conjunction: set<string>): Condition
    decreases |conjunction|
  {
    if conjunction == {} then {{}}
    else
      var p :| p in conjunction;
      Pairwise(Expanded(conjunction - {p}), Alternatives(p))
  }

  lemma {:induction false} PairwiseSwaps(x: Condition, y: Condition, z: Condition)
    ensures Pairwise(Pairwise(x, y), z) == Pairwise(Pairwise(x, z), y)
  {
    PairwiseWithin(x, y, z);
    PairwiseWithin(x, z, y);
  }

  lemma {:induction false} PairwiseWithin(x: Condition, y: Condition, z: Condition)
    ensures Pairwise(Pairwise(x, y), z) <= Pairwise(Pairwise(x, z), y)
  {
    forall e | e in Pairwise(Pairwise(x, y), z) ensures e in Pairwise(Pairwise(x, z), y) {
      var d, c :| d in Pairwise(x, y) && c in z && e == d + c;
      var a, b :| a in x && b in y && d == a + b;
      assert a + c in Pairwise(x, z) && e == (a + c) + b;
    }
  }

  /** Any predicate may be taken last: the order a set is gone through in makes no difference. */
  lemma {:induction false} ExpandedStep(conjunction: set<string>, p: string)
    requires p in conjunction
    ensures Expanded(conjunction) == Pairwise(Expanded(conjunction - {p}), Alternatives(p))
    decreases |conjunction|
  {
    var q :| q in conjunction && Expanded(conjunction) == Pairwise(Expanded(conjunction - {q}), Alternatives(q));
    if p != q {
      ExpandedStep(conjunction - {q}, p);
      ExpandedStep(conjunction - {p}, q);
      assert conjunction - {q} - {p} == conjunction - {p} - {q};
      PairwiseSwaps(Expanded(conjunction - {q} - {p}), Alternatives(p), Alternatives(q));
    }
  }

  method Expand(conjunction: set<string>) returns (result: Condition)
    ensures result == Expanded(conjunction)
  {
    result := {{}};
    var todo := conjunction;
    assert conjunction - todo == {};
    while todo != {}
      invariant todo <= conjunction && result == Expanded(conjunction - todo)
      decreases todo
    {
      var p :| p in todo;
      var next := ReadAlternatives(p);
      ExpandedStep(conjunction - (todo - {p}), p);
      assert conjunction - (todo - {p}) - {p} == conjunction - todo;
      todo := todo - {p};
      result := Pairwise(result, next);
    }
    assert conjunction - todo == conjunction;
  }

  ghost predicate EveryOne(conjunction: set<string>, env: Assignment) {
    forall p :: p in conjunction ==> Eval(Parse(p), env)
  }

  /** Expanding preserves the meaning: every predicate of the conjunction holds. */
  lemma {:induction false} ExpandedMeansEvery(conjunction: set<string>, env: Assignment)
    ensures Holds(Expanded(conjunction), env) <==> EveryOne(conjunction, env)
    decreases |conjunction|
  {
    if conjunction == {} {
      assert {} in Expanded(conjunction) && Enough({}, env);
    } else {
      var p :| p in conjunction;
      ExpandedStep(conjunction, p);
      ExpandedMeansEvery(conjunction - {p}, env);
      AlternativesKeepTheMeaning(p, env);
      PairwiseMeansBoth(Expanded(conjunction - {p}), Alternatives(p), env);
      assert forall q :: q in conjunction <==> q == p || q in conjunction - {p};
    }
  }

  // ---- the minimal set ---------------------------------------------------------------------

  /** The conjunctions no other one of the set is strictly within. */
  function Minimal(alts: Condition): (kept: Condition)
    ensures kept <= alts
  {
    set a | a in alts && forall b :: b in alts ==> !(b < a)
  }

  /** Under every conjunction of a set there is a minimal one. */
  lemma {:induction false} MinimalBelow(alts: Condition, a: Conjunction) returns (b: Conjunction)
    requires a in alts
    ensures b in Minimal(alts) && b <= a
    decreases |a|
  {
    if a in Minimal(alts) {
      b := a;
    } else {
      var c :| c in alts && c < a;
      SmallerInside(c, a);
      b := MinimalBelow(alts, c);
    }
  }

  lemma {:induction false} SmallerInside(c: Conjunction, a: Conjunction)
    requires c < a
    ensures |c| < |a|
  {
    var x :| x in a && x !in c;
    assert a == c + (a - c) && x in a - c;
    assert |a| == |c| + |a - c|;
  }

  lemma {:induction false} MinimalKeepsTheMeaning(alts: Condition, env: Assignment)
    ensures Holds(Minimal(alts), env) <==> Holds(alts, env)
  {
    if Holds(alts, env) {
      var a :| a in alts && Enough(a, env);
      var b := MinimalBelow(alts, a);
      assert Enough(b, env);
    }
  }

  lemma {:induction false} MinimalFitsEquivalent(x: Condition, y: Condition)
    requires Equivalent(x, y)
    ensures Minimal(x) <= Minimal(y)
  {
    forall a | a in Minimal(x) ensures a in Minimal(y) {
      var env := iset e | e in a;
      assert Enough(a, env) && Holds(x, env);
      var b0 :| b0 in y && Enough(b0, env);
      var b := MinimalBelow(y, b0);
      assert b <= a;
      var below := iset e | e in b;
      assert Enough(b, below) && Holds(y, below);
      var c :| c in x && Enough(c, below);
      assert c <= b;
      assert !(c < a);
      assert a == b;
    }
  }

  /** Two conditions are equivalent under all assignments exactly when their minimal sets are one. */
  lemma {:induction false} MinimalIsCanonical(x: Condition, y: Condition)
    ensures Equivalent(x, y) <==> Minimal(x) == Minimal(y)
  {
    if Equivalent(x, y) {
      MinimalFitsEquivalent(x, y);
      MinimalFitsEquivalent(y, x);
    }
    if Minimal(x) == Minimal(y) {
      forall env: Assignment ensures Holds(x, env) <==> Holds(y, env) {
        MinimalKeepsTheMeaning(x, env);
        MinimalKeepsTheMeaning(y, env);
      }
    }
  }

  /** No set of conjunctions equivalent to a condition has fewer members than its minimal set. */
  lemma {:induction false} MinimalIsLeast(x: Condition, y: Condition)
    requires Equivalent(x, y)
    ensures Minimal(x) <= y && |Minimal(x)| <= |y|
  {
    MinimalIsCanonical(x, y);
    assert y == Minimal(x) + (y - Minimal(x));
  }

  lemma {:induction false} AlwaysIsTheEmptyConjunction(alts: Condition)
    ensures Minimal(alts) == {{}} <==> {} in alts
    ensures {} in alts <==> forall env: Assignment :: Holds(alts, env)
  {
    if {} in alts {
      forall env: Assignment ensures Holds(alts, env) {
        assert Enough({}, env);
      }
      assert forall a :: a in alts && a != {} ==> {} < a;
    }
    if forall env: Assignment :: Holds(alts, env) {
      var none: Assignment := iset{};
      assert Holds(alts, none);
      var a :| a in alts && Enough(a, none);
      assert a == {};
    }
  }

  // ---- the test that uses it ---------------------------------------------------------------

  ghost function EachExpanded(users: seq<set<string>>): (each: seq<Condition>)
    ensures |each| == |users| && forall i :: 0 <= i < |users| ==> each[i] == Expanded(users[i])
  {
    seq(|users|, i requires 0 <= i < |users| => Expanded(users[i]))
  }

  /** Whether an import's conditions are taken to be those of the code that names it. */
  ghost predicate Accepts(binding: Condition, users: seq<set<string>>) {
    if users == [] then Minimal(binding) == {{}}
    else Minimal(binding) == Minimal(Unite(EachExpanded(users)))
  }

  /** Some code that names the import is compiled. */
  ghost predicate SomeUser(users: seq<set<string>>, env: Assignment) {
    exists i :: 0 <= i < |users| && EveryOne(users[i], env)
  }

  lemma {:induction false} UnionMeansSomeUser(users: seq<set<string>>, env: Assignment)
    ensures Holds(Unite(EachExpanded(users)), env) <==> SomeUser(users, env)
  {
    var each := EachExpanded(users);
    UniteMeansSome(each, env);
    forall i | 0 <= i < |users| ensures Holds(each[i], env) <==> EveryOne(users[i], env) {
      ExpandedMeansEvery(users[i], env);
    }
  }

  /** An import passes exactly when it is compiled wherever some code naming it is, and nowhere else, or,
      with no code naming it, everywhere. */
  lemma {:induction false} AcceptsExactlyTheUnion(binding: Condition, users: seq<set<string>>)
    ensures Accepts(binding, users) <==>
            forall env: Assignment :: Holds(binding, env) <==> users == [] || SomeUser(users, env)
  {
    if users == [] {
      AlwaysIsTheEmptyConjunction(binding);
    } else {
      var union := Unite(EachExpanded(users));
      MinimalIsCanonical(binding, union);
      forall env: Assignment ensures Holds(union, env) <==> SomeUser(users, env) {
        UnionMeansSomeUser(users, env);
      }
    }
  }

  /** `all(a, b)` as its parts, and anything else as itself. */
  function SplitPredicates(text: string): set<string> {
    if IsAll(text) then set part | part in Parts(Inner(text)) else {text}
  }

  lemma {:induction false} SplittingKeepsTheMeaning(text: string, env: Assignment)
    ensures EveryOne(SplitPredicates(text), env) <==> Eval(Parse(text), env)
  {
    ParseOfGroup(text);
    if IsAll(text) {
      var parts := Parts(Inner(text));
      var each := EachParsed(parts);
      assert Eval(All(each), env) <==> forall i :: 0 <= i < |parts| ==> Eval(each[i], env);
      assert forall i :: 0 <= i < |parts| ==> parts[i] in SplitPredicates(text);
      forall p | p in SplitPredicates(text) && Eval(All(each), env) ensures Eval(Parse(p), env) {
        var i :| 0 <= i < |parts| && parts[i] == p;
        assert each[i] == Parse(p);
      }
    }
  }

  /** Splitting a predicate into the conditions of an item leaves its minimal condition as it was. */
  lemma {:induction false} SplittingKeepsTheCondition(text: string)
    ensures Minimal(Expanded(SplitPredicates(text))) == Minimal(Alternatives(text))
  {
    forall env: Assignment ensures Holds(Expanded(SplitPredicates(text)), env) <==> Holds(Alternatives(text), env) {
      ExpandedMeansEvery(SplitPredicates(text), env);
      AlternativesKeepTheMeaning(text, env);
      SplittingKeepsTheMeaning(text, env);
    }
    MinimalIsCanonical(Expanded(SplitPredicates(text)), Alternatives(text));
  }
}
