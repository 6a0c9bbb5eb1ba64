/** The order of versions: keys that sort as semantic versioning orders what they stand for. */
module VersionOrder {
  import opened Common

  const KEY_NUMBERS: nat := 8

  /** The numbers of a version, always eight of them. */
  type Numbers = s: seq<nat> | |s| == KEY_NUMBERS witness [0, 0, 0, 0, 0, 0, 0, 0]

  /** One identifier of a pre-release: a number, a word as its character codes, or the marker that stands
      above both and that no version carries. */
  datatype Ident = Number(value: nat) | Word(codes: seq<nat>) | Top

  datatype Tail = Tail(release: bool, idents: seq<Ident>)

  /** Where a version sorts; a key without a tail is below everything that shares its numbers. */
  datatype Key = Key(numbers: Numbers, tail: Option<Tail>)

  // ---- comparing keys ----------------------------------------------------------------------

  predicate IdentLt(a: Ident, b: Ident) {
    match (a, b)
    case (Number(x), Number(y)) => x < y
    case (Word(x), Word(y)) => x != y && LexLe(x, y)
    case (Number(_), _) => true
    case (Word(_), Top) => true
    case _ => false
  }

  predicate IdentsLe(a: seq<Ident>, b: seq<Ident>) {
    a == [] || (b != [] && (IdentLt(a[0], b[0]) || (a[0] == b[0] && IdentsLe(a[1..], b[1..]))))
  }

  predicate TailLe(a: Option<Tail>, b: Option<Tail>) {
    a.None? || (b.Some? && (if a.value.release != b.value.release then b.value.release
                            else IdentsLe(a.value.idents, b.value.idents)))
  }

  predicate KeyLe(a: Key, b: Key) {
    if a.numbers != b.numbers then LexLe(a.numbers, b.numbers) else TailLe(a.tail, b.tail)
  }

  predicate KeyLt(a: Key, b: Key) {
    !KeyLe(b, a)
  }

  lemma {:induction false} IdentsCompare(a: Ident, b: Ident)
    ensures IdentLt(a, b) || IdentLt(b, a) || a == b
    ensures !(IdentLt(a, b) && IdentLt(b, a)) && !IdentLt(a, a)
  {
    if a.Word? && b.Word? {
      LexTotal(a.codes, b.codes);
      if LexLe(a.codes, b.codes) && LexLe(b.codes, a.codes) {
        LexAntisymmetric(a.codes, b.codes);
      }
    }
  }

  lemma {:induction false} IdentsCompareOn(a: Ident, b: Ident, c: Ident)
    requires IdentLt(a, b) && IdentLt(b, c)
    ensures IdentLt(a, c)
  {
    if a.Word? && b.Word? && c.Word? {
      LexTransitive(a.codes, b.codes, c.codes);
      if a == c {
        LexAntisymmetric(a.codes, b.codes);
      }
    }
  }

  lemma {:induction false} IdentsTotal(a: seq<Ident>, b: seq<Ident>)
    ensures IdentsLe(a, b) || IdentsLe(b, a)
    ensures IdentsLe(a, b) && IdentsLe(b, a) ==> a == b
    decreases |a|
  {
    if a != [] && b != [] {
      IdentsCompare(a[0], b[0]);
      if a[0] == b[0] {
        IdentsTotal(a[1..], b[1..]);
        assert a == [a[0]] + a[1..] && b == [b[0]] + b[1..];
      }
    }
  }

  lemma {:induction false} IdentsTransitive(a: seq<Ident>, b: seq<Ident>, c: seq<Ident>)
    requires IdentsLe(a, b) && IdentsLe(b, c)
    ensures IdentsLe(a, c)
    decreases |a|
  {
    if a != [] {
      if IdentLt(a[0], b[0]) && IdentLt(b[0], c[0]) {
        IdentsCompareOn(a[0], b[0], c[0]);
      }
      if a[0] == b[0] == c[0] {
        IdentsTransitive(a[1..], b[1..], c[1..]);
      }
    }
  }

  lemma {:induction false} KeysTotal(a: Key, b: Key)
    ensures KeyLe(a, b) || KeyLe(b, a)
    ensures KeyLe(a, b) && KeyLe(b, a) ==> a == b
  {
    LexTotal(a.numbers, b.numbers);
    if LexLe(a.numbers, b.numbers) && LexLe(b.numbers, a.numbers) {
      LexAntisymmetric(a.numbers, b.numbers);
    }
    if a.tail.Some? && b.tail.Some? {
      IdentsTotal(a.tail.value.idents, b.tail.value.idents);
    }
  }

  lemma {:induction false} TailsTransitive(a: Option<Tail>, b: Option<Tail>, c: Option<Tail>)
    requires TailLe(a, b) && TailLe(b, c)
    ensures TailLe(a, c)
  {
    if a.Some? && a.value.release == b.value.release == c.value.release {
      IdentsTransitive(a.value.idents, b.value.idents, c.value.idents);
    }
  }

  lemma {:induction false} KeysTransitive(a: Key, b: Key, c: Key)
    requires KeyLe(a, b) && KeyLe(b, c)
    ensures KeyLe(a, c)
  {
    if a.numbers == b.numbers == c.numbers {
      TailsTransitive(a.tail, b.tail, c.tail);
    } else if a.numbers != b.numbers && b.numbers != c.numbers {
      LexTransitive(a.numbers, b.numbers, c.numbers);
      if a.numbers == c.numbers {
        LexAntisymmetric(a.numbers, b.numbers);
      }
    }
  }

  // ---- keys of versions --------------------------------------------------------------------

  /** A version as written: its numbers and, for a pre-release, the identifiers between its dots. */
  datatype Written = Written(numbers: seq<nat>, pre: Option<seq<string>>)

  function Padded(numbers: seq<nat>): (r: Numbers)
    ensures forall i :: 0 <= i < KEY_NUMBERS ==> r[i] == if i < |numbers| then numbers[i] else 0
  {
    (numbers + seq(KEY_NUMBERS, _ => 0))[..KEY_NUMBERS]
  }

  predicate IsDigits(s: string) {
    s != "" && forall i :: 0 <= i < |s| ==> '0' <= s[i] <= '9'
  }

  function Decimal(s: string): nat
    requires forall i :: 0 <= i < |s| ==> '0' <= s[i] <= '9'
  {
    if s == "" then 0 else 10 * Decimal(s[..|s| - 1]) + (s[|s| - 1] as nat - '0' as nat)
  }

  function Lower(s: string): string {
    seq(|s|, i requires 0 <= i < |s| => if 'A' <= s[i] <= 'Z' then (s[i] as int + 32) as char else s[i])
  }

  function ReadIdent(s: string, fold: bool): (ident: Ident)
    ensures !ident.Top?
  {
    if IsDigits(s) then Number(Decimal(s)) else Word(Codes(if fold then Lower(s) else s))
  }

  function ReadIdents(pre: seq<string>, fold: bool): (idents: seq<Ident>)
    ensures |idents| == |pre| && forall i :: 0 <= i < |pre| ==> idents[i] == ReadIdent(pre[i], fold)
  {
    seq(|pre|, i requires 0 <= i < |pre| => ReadIdent(pre[i], fold))
  }

  function VersionKey(w: Written, fold: bool): (k: Key)
    ensures IsVersion(k)
  {
    Key(Padded(w.numbers),
        Some(if w.pre.None? then Tail(true, []) else Tail(false, ReadIdents(w.pre.value, fold))))
  }

  /** A key some version could have. */
  predicate IsVersion(k: Key) {
    && k.tail.Some?
    && (k.tail.value.release ==> k.tail.value.idents == [])
    && (forall i :: 0 <= i < |k.tail.value.idents| ==> !k.tail.value.idents[i].Top?)
  }

  /** The smallest key above a version's. */
  function After(k: Key): Key
    requires k.tail.Some?
  {
    k.(tail := Some(k.tail.value.(idents := k.tail.value.idents + [if k.tail.value.release then Top else Number(0)])))
  }

  function SeriesStart(numbers: seq<nat>): Key {
    Key(Padded(numbers), None)
  }

  lemma {:induction false} ExtensionIsNext(k: seq<Ident>, v: seq<Ident>, marker: Ident)
    requires forall i :: 0 <= i < |v| ==> v[i] == marker || IdentLt(marker, v[i])
    ensures !IdentsLe(v, k) <==> IdentsLe(k + [marker], v)
    decreases |k|
  {
    if k == [] {
      if v != [] {
        assert v[0] == marker || IdentLt(marker, v[0]);
        assert ([] + [marker])[1..] == [];
      }
    } else if v != [] {
      assert (k + [marker])[0] == k[0] && (k + [marker])[1..] == k[1..] + [marker];
      IdentsCompare(k[0], v[0]);
      ExtensionIsNext(k[1..], v[1..], marker);
    }
  }

  /** A version is above a version exactly when it is at or above the key after it. */
  lemma {:induction false} AfterIsNext(k: Key, v: Key)
    requires IsVersion(k) && IsVersion(v)
    ensures KeyLt(k, v) <==> KeyLe(After(k), v)
    ensures KeyLe(v, k) <==> KeyLt(v, After(k))
  {
    var kt, vt := k.tail.value, v.tail.value;
    if k.numbers != v.numbers {
      KeysTotal(k, v);
      assert KeyLe(After(k), v) <==> LexLe(k.numbers, v.numbers);
    } else if kt.release == vt.release {
      if kt.release {
        assert ([] + [Top])[0] == Top;
      } else {
        ExtensionIsNext(kt.idents, vt.idents, Number(0));
      }
    }
  }

  /** The key after a version is strictly above it, and after a pre-release it is itself a version's. */
  lemma {:induction false} AfterIsAbove(k: Key)
    requires IsVersion(k)
    ensures KeyLt(k, After(k))
    ensures !k.tail.value.release ==> IsVersion(After(k))
  {
    AfterIsNext(k, k);
    KeysTotal(k, k);
  }

  /** The start of a series is at or below exactly the versions, pre-releases too, with at least its numbers. */
  lemma {:induction false} SeriesStartIsFirst(numbers: seq<nat>, v: Key)
    requires IsVersion(v)
    ensures KeyLe(SeriesStart(numbers), v) <==> LexLe(Padded(numbers), v.numbers)
    ensures !KeyLe(v, SeriesStart(numbers)) <==> KeyLe(SeriesStart(numbers), v)
  {
    LexTotal(v.numbers, v.numbers);
    KeysTotal(SeriesStart(numbers), v);
  }

  // ---- section 11 of Semantic Versioning 2.0.0 ---------------------------------------------

  /** A letter as a reading compares it: as it is, or, without regard to case, a capital as the small letter at
      its place in the alphabet. */
  function Letter(c: char, fold: bool): char {
    if fold && 'A' <= c <= 'Z' then 'a' + (c - 'A') else c
  }

  /** A word sorts below another where the first letter they differ in does, or where it ends first. */
  ghost predicate WordPrecedes(x: string, y: string, fold: bool) {
    exists k: nat :: WordDiffersAt(x, y, k, fold)
  }

  ghost predicate WordDiffersAt(x: string, y: string, k: nat, fold: bool) {
    && k <= |x| && k <= |y| && (forall i :: 0 <= i < k ==> Letter(x[i], fold) == Letter(y[i], fold))
    && (if k == |x| then k < |y| else k < |y| && Letter(x[k], fold) < Letter(y[k], fold))
  }

  predicate SameLetters(x: string, y: string, fold: bool) {
    |x| == |y| && forall i :: 0 <= i < |x| ==> Letter(x[i], fold) == Letter(y[i], fold)
  }

  ghost predicate IdentPrecedes(x: string, y: string, fold: bool) {
    if IsDigits(x) then (IsDigits(y) ==> Decimal(x) < Decimal(y))
    else !IsDigits(y) && WordPrecedes(x, y, fold)
  }

  ghost predicate SameRank(x: string, y: string, fold: bool) {
    SameLetters(x, y, fold) || (IsDigits(x) && IsDigits(y) && Decimal(x) == Decimal(y))
  }

  /** Field by field from the left to the first difference; with none, the longer list is higher. */
  ghost predicate LabelPrecedes(p: seq<string>, q: seq<string>, fold: bool) {
    exists k: nat :: LabelDiffersAt(p, q, k, fold)
  }

  ghost predicate LabelDiffersAt(p: seq<string>, q: seq<string>, k: nat, fold: bool) {
    && k <= |p| && k <= |q| && (forall i :: 0 <= i < k ==> SameRank(p[i], q[i], fold))
    && (if k == |p| then k < |q| else k < |q| && IdentPrecedes(p[k], q[k], fold))
  }

  ghost predicate Precedes(v: Written, w: Written, fold: bool)
    requires |v.numbers| == 3 && |w.numbers| == 3
  {
    var a, b := v.numbers, w.numbers;
    if a[0] != b[0] then a[0] < b[0]
    else if a[1] != b[1] then a[1] < b[1]
    else if a[2] != b[2] then a[2] < b[2]
    else if v.pre.None? || w.pre.None? then v.pre.Some? && w.pre.None?
    else LabelPrecedes(v.pre.value, w.pre.value, fold)
  }

  lemma {:induction false} FirstDifference(x: seq<nat>, y: seq<nat>) returns (k: nat)
    requires !LexLe(y, x)
    ensures k <= |x| && k <= |y| && x[..k] == y[..k] && (if k == |x| then k < |y| else k < |y| && x[k] < y[k])
    decreases |x|
  {
    if x == [] || x[0] != y[0] {
      k := 0;
    } else {
      k := FirstDifference(x[1..], y[1..]);
      assert x[..k + 1] == [x[0]] + x[1..][..k] && y[..k + 1] == [y[0]] + y[1..][..k];
      k := k + 1;
    }
  }

  lemma {:induction false} DifferenceDecides(x: seq<nat>, y: seq<nat>, k: nat)
    requires k <= |x| && k <= |y| && x[..k] == y[..k] && (if k == |x| then k < |y| else k < |y| && x[k] < y[k])
    ensures !LexLe(y, x)
    decreases k
  {
    if k > 0 {
      assert x[0] == x[..k][0] && y[0] == y[..k][0];
      assert x[1..][..k - 1] == x[..k][1..] && y[1..][..k - 1] == y[..k][1..];
      DifferenceDecides(x[1..], y[1..], k - 1);
    }
  }

  /** The codes a word is compared by are those of its letters. */
  lemma {:induction false} CodesOfLetters(x: string, fold: bool)
    ensures var codes := Codes(if fold then Lower(x) else x);
            |codes| == |x| && forall i :: 0 <= i < |x| ==> codes[i] == Letter(x[i], fold) as nat
  {
  }

  lemma {:induction false} WordsAgree(x: string, y: string, fold: bool)
    ensures WordPrecedes(x, y, fold) <==> !LexLe(Codes(if fold then Lower(y) else y), Codes(if fold then Lower(x) else x))
  {
    var a, b := Codes(if fold then Lower(x) else x), Codes(if fold then Lower(y) else y);
    CodesOfLetters(x, fold);
    CodesOfLetters(y, fold);
    if !LexLe(b, a) {
      var k := FirstDifference(a, b);
      forall i | 0 <= i < k ensures Letter(x[i], fold) == Letter(y[i], fold) {
        assert a[..k][i] == b[..k][i];
      }
      assert WordDiffersAt(x, y, k, fold);
    }
    if WordPrecedes(x, y, fold) {
      var k: nat :| WordDiffersAt(x, y, k, fold);
      assert a[..k] == b[..k];
      DifferenceDecides(a, b, k);
    }
  }

  lemma {:induction false} SameCodes(x: string, y: string, fold: bool)
    ensures Codes(if fold then Lower(x) else x) == Codes(if fold then Lower(y) else y) <==> SameLetters(x, y, fold)
  {
    var a, b := Codes(if fold then Lower(x) else x), Codes(if fold then Lower(y) else y);
    CodesOfLetters(x, fold);
    CodesOfLetters(y, fold);
    if a == b {
      forall i | 0 <= i < |x| ensures Letter(x[i], fold) == Letter(y[i], fold) {
        assert a[i] == b[i];
      }
    }
    if SameLetters(x, y, fold) {
      assert forall i :: 0 <= i < |a| ==> a[i] == b[i];
    }
  }

  /** Letters that are the same one by one are digits in one word exactly when they are in the other. */
  lemma {:induction false} SameDigits(x: string, y: string, fold: bool)
    requires SameLetters(x, y, fold) && IsDigits(x)
    ensures x == y
  {
    forall i | 0 <= i < |x| ensures x[i] == y[i] {
      assert Letter(x[i], fold) == Letter(y[i], fold);
    }
  }

  lemma {:induction false} SameLettersBack(x: string, y: string, fold: bool)
    ensures SameLetters(x, y, fold) <==> SameLetters(y, x, fold)
  {
  }

  lemma {:induction false} IdentsAgree(x: string, y: string, fold: bool)
    ensures IdentLt(ReadIdent(x, fold), ReadIdent(y, fold)) <==> IdentPrecedes(x, y, fold)
    ensures ReadIdent(x, fold) == ReadIdent(y, fold) <==> SameRank(x, y, fold)
  {
    var a, b := Codes(if fold then Lower(x) else x), Codes(if fold then Lower(y) else y);
    SameCodes(x, y, fold);
    SameLettersBack(x, y, fold);
    if SameLetters(x, y, fold) && IsDigits(x) { SameDigits(x, y, fold); }
    if SameLetters(x, y, fold) && IsDigits(y) { SameDigits(y, x, fold); }
    if !IsDigits(x) && !IsDigits(y) {
      WordsAgree(x, y, fold);
      LexTotal(a, b);
      if LexLe(a, b) && LexLe(b, a) {
        LexAntisymmetric(a, b);
      }
    }
  }

  lemma {:induction false} LabelsPrecedeLater(p: seq<string>, q: seq<string>, fold: bool)
    requires p != [] && q != [] && SameRank(p[0], q[0], fold)
    ensures LabelPrecedes(p, q, fold) <==> LabelPrecedes(p[1..], q[1..], fold)
  {
    if LabelPrecedes(p[1..], q[1..], fold) {
      var k: nat :| LabelDiffersAt(p[1..], q[1..], k, fold);
      forall i | 0 <= i < k + 1 ensures SameRank(p[i], q[i], fold) {
        if i > 0 { assert SameRank(p[1..][i - 1], q[1..][i - 1], fold); }
      }
      assert LabelDiffersAt(p, q, k + 1, fold);
    }
    if LabelPrecedes(p, q, fold) {
      var k: nat :| LabelDiffersAt(p, q, k, fold);
      IdentsAgree(p[0], q[0], fold);
      IdentsCompare(ReadIdent(p[0], fold), ReadIdent(q[0], fold));
      assert k > 0;
      assert LabelDiffersAt(p[1..], q[1..], k - 1, fold);
    }
  }

  lemma {:induction false} LabelsAgree(p: seq<string>, q: seq<string>, fold: bool)
    ensures LabelPrecedes(p, q, fold) <==> !IdentsLe(ReadIdents(q, fold), ReadIdents(p, fold))
    decreases |p|
  {
    var a, b := ReadIdents(p, fold), ReadIdents(q, fold);
    if p == [] {
      assert q != [] ==> LabelDiffersAt(p, q, 0, fold);
    } else if q != [] {
      IdentsAgree(p[0], q[0], fold);
      IdentsAgree(q[0], p[0], fold);
      IdentsCompare(a[0], b[0]);
      if SameRank(p[0], q[0], fold) {
        LabelsPrecedeLater(p, q, fold);
        LabelsAgree(p[1..], q[1..], fold);
        assert a[1..] == ReadIdents(p[1..], fold) && b[1..] == ReadIdents(q[1..], fold);
      } else {
        LabelsDifferFirst(p, q, fold);
      }
    }
  }

  lemma {:induction false} LabelsDifferFirst(p: seq<string>, q: seq<string>, fold: bool)
    requires p != [] && q != [] && !SameRank(p[0], q[0], fold)
    ensures LabelPrecedes(p, q, fold) <==> IdentPrecedes(p[0], q[0], fold)
  {
    if IdentPrecedes(p[0], q[0], fold) {
      assert LabelDiffersAt(p, q, 0, fold);
    }
    if LabelPrecedes(p, q, fold) {
      var k: nat :| LabelDiffersAt(p, q, k, fold);
      assert k == 0;
    }
  }

  lemma {:induction false} NumbersAgree(a: seq<nat>, b: seq<nat>)
    requires |a| == 3 && |b| == 3
    ensures Padded(a) == Padded(b) <==> a == b
    ensures a != b ==>
              (LexLe(Padded(a), Padded(b)) <==>
               if a[0] != b[0] then a[0] < b[0] else if a[1] != b[1] then a[1] < b[1] else a[2] < b[2])
  {
    var x, y := Padded(a), Padded(b);
    assert forall i :: 0 <= i < 3 ==> x[i] == a[i] && y[i] == b[i];
    assert a == b <==> a[0] == b[0] && a[1] == b[1] && a[2] == b[2];
    LexFirst(x, y);
    LexFirst(x[1..], y[1..]);
    LexFirst(x[1..][1..], y[1..][1..]);
  }

  lemma {:induction false} LexFirst(x: seq<nat>, y: seq<nat>)
    requires x != [] && y != []
    ensures x[0] != y[0] ==> (LexLe(x, y) <==> x[0] < y[0])
    ensures x[0] == y[0] ==> (LexLe(x, y) <==> LexLe(x[1..], y[1..]))
  {
  }

  /** Keys order three-part versions exactly as section 11 of Semantic Versioning 2.0.0 does, with words
      compared letter by letter, in the second reading without regard to case. */
  lemma {:induction false} KeysFollowSemanticVersioning(v: Written, w: Written, fold: bool)
    requires |v.numbers| == 3 && |w.numbers| == 3
    ensures KeyLt(VersionKey(v, fold), VersionKey(w, fold)) <==> Precedes(v, w, fold)
  {
    var a, b := v.numbers, w.numbers;
    NumbersAgree(a, b);
    NumbersAgree(b, a);
    assert a == b <==> a[0] == b[0] && a[1] == b[1] && a[2] == b[2];
    var x, y := VersionKey(v, fold), VersionKey(w, fold);
    if a != b {
      assert KeyLt(x, y) <==> Precedes(v, w, fold);
    } else if v.pre.Some? && w.pre.Some? {
      LabelsAgree(v.pre.value, w.pre.value, fold);
      assert KeyLt(x, y) <==> Precedes(v, w, fold);
    } else {
      assert KeyLt(x, y) <==> Precedes(v, w, fold);
    }
  }

  /** Two letters that are one, or the capital and the small form of one. */
  predicate CaseTwins(a: char, b: char) {
    || a == b
    || ('A' <= a <= 'Z' && 'a' <= b <= 'z' && a as int - 'A' as int == b as int - 'a' as int)
    || ('a' <= a <= 'z' && 'A' <= b <= 'Z' && a as int - 'a' as int == b as int - 'A' as int)
  }

  predicate DifferInCase(x: string, y: string) {
    |x| == |y| && forall i :: 0 <= i < |x| ==> CaseTwins(x[i], y[i])
  }

  lemma {:induction false} TwinsAreOneLetter(x: string, y: string)
    ensures DifferInCase(x, y) <==> SameLetters(x, y, true)
  {
    forall i | 0 <= i < |x| && |x| == |y| ensures CaseTwins(x[i], y[i]) <==> Letter(x[i], true) == Letter(y[i], true) { }
  }

  /** Without regard to case, two words have one key exactly when they are one letter by letter but for case;
      so versions that differ in the case of their labels alone have one key. */
  lemma {:induction false} CaseIsDisregarded(x: string, y: string)
    requires !IsDigits(x) && !IsDigits(y)
    ensures ReadIdent(x, true) == ReadIdent(y, true) <==> DifferInCase(x, y)
  {
    IdentsAgree(x, y, true);
    TwinsAreOneLetter(x, y);
  }

  lemma {:induction false} VersionsInAnyCase(v: Written, w: Written)
    requires v.numbers == w.numbers && (v.pre.Some? <==> w.pre.Some?)
    requires v.pre.Some? ==>
               |v.pre.value| == |w.pre.value| && forall i :: 0 <= i < |v.pre.value| ==> DifferInCase(v.pre.value[i], w.pre.value[i])
    ensures VersionKey(v, true) == VersionKey(w, true)
  {
    if v.pre.Some? {
      forall i | 0 <= i < |v.pre.value| ensures ReadIdent(v.pre.value[i], true) == ReadIdent(w.pre.value[i], true) {
        TwinsAreOneLetter(v.pre.value[i], w.pre.value[i]);
        IdentsAgree(v.pre.value[i], w.pre.value[i], true);
      }
      assert ReadIdents(v.pre.value, true) == ReadIdents(w.pre.value, true);
    }
  }
}
