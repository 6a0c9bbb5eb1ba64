/** Shared vocabulary: options, the lexicographic order every tie in the repository is broken by,
    and the ascending enumeration of a finite set, which is how an ordered map is iterated. */
module Common {

  datatype Option<+T> = None | Some(value: T)

  function Max(a: nat, b: nat): nat {
    if a < b then b else a
  }

  function Min(a: nat, b: nat): nat {
    if a < b then a else b
  }

  /** Subtraction that stops at nought, as the source's `saturating_sub` does. */
  function Monus(a: nat, b: nat): nat {
    if a < b then 0 else a - b
  }

  /** Lexicographic order on sequences of numbers; a proper prefix is below what extends it. */
  predicate LexLe(a: seq<nat>, b: seq<nat>) {
    a == [] || (b != [] && (a[0] < b[0] || (a[0] == b[0] && LexLe(a[1..], b[1..]))))
  }

  /** The codes of a text's characters, by which texts are ordered. */
  function Codes(s: string): (codes: seq<nat>)
    ensures |codes| == |s| && forall i :: 0 <= i < |s| ==> codes[i] == s[i] as nat
  {
    seq(|s|, i requires 0 <= i < |s| => s[i] as nat)
  }

  lemma {:induction false} LexTotal(a: seq<nat>, b: seq<nat>)
    ensures LexLe(a, b) || LexLe(b, a)
  {
    if a != [] && b != [] && a[0] == b[0] {
      LexTotal(a[1..], b[1..]);
    }
  }

  lemma {:induction false} LexTransitive(a: seq<nat>, b: seq<nat>, c: seq<nat>)
    requires LexLe(a, b) && LexLe(b, c)
    ensures LexLe(a, c)
  {
    if a != [] && a[0] == b[0] == c[0] {
      LexTransitive(a[1..], b[1..], c[1..]);
    }
  }

  lemma {:induction false} LexAntisymmetric(a: seq<nat>, b: seq<nat>)
    requires LexLe(a, b) && LexLe(b, a)
    ensures a == b
  {
    if a != [] {
      LexAntisymmetric(a[1..], b[1..]);
      assert a == [a[0]] + a[1..] && b == [b[0]] + b[1..];
    }
  }

  /** Every nonempty finite set has an element of least rank. */
  lemma {:induction false} LeastExists<T(!new)>(s: set<T>, rank: T -> seq<nat>) returns (m: T)
    requires s != {}
    ensures m in s
    ensures forall x :: x in s ==> LexLe(rank(m), rank(x))
    decreases |s|
  {
    m :| m in s;
    LexTotal(rank(m), rank(m));
    if s != {m} {
      var rest := s - {m};
      assert s == rest + {m};
      var other := LeastExists(rest, rank);
      LexTotal(rank(m), rank(other));
      if !LexLe(rank(m), rank(other)) {
        m := other;
      } else {
        forall x | x in s ensures LexLe(rank(m), rank(x)) {
          if x in rest { LexTransitive(rank(m), rank(other), rank(x)); }
        }
      }
    }
  }

  lemma {:induction false} OneKeyLess<K, V>(m: map<K, V>, k: K)
    requires k in m
    ensures |m - {k}| == |m| - 1
  {
    assert m.Keys == (m - {k}).Keys + {k};
  }

  ghost predicate NoDuplicates<T>(s: seq<T>) {
    forall i, j :: 0 <= i < j < |s| ==> s[i] != s[j]
  }
}
