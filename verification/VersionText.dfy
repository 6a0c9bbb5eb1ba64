/** Versions and ranges as advisories write them, and what reading them gives. */
module VersionText {
  import opened Common
  import opened Texts
  import opened VersionOrder
  import opened VersionRanges

  // ---- versions ----------------------------------------------------------------------------

  predicate IsDigit(c: char) { '0' <= c <= '9' }
  predicate IsAlnum(c: char) { IsDigit(c) || 'a' <= c <= 'z' || 'A' <= c <= 'Z' }
  predicate IsLabelChar(c: char) { IsAlnum(c) || c == '.' || c == '-' }

  predicate IsLabel(text: string) {
    text != "" && IsAlnum(text[0]) && forall i :: 0 <= i < |text| ==> IsLabelChar(text[i])
  }

  predicate IsBuild(text: string) {
    text != "" && forall i :: 0 <= i < |text| ==> IsLabelChar(text[i])
  }

  function ReadNumbers(text: string): Option<seq<nat>> {
    var parts := SplitOn(text, '.');
    if forall i :: 0 <= i < |parts| ==> IsDigits(parts[i])
    then Some(seq(|parts|, i requires 0 <= i < |parts| && IsDigits(parts[i]) => Decimal(parts[i])))
    else None
  }

  /** Where the numbers of a version end: at the first hyphen or plus sign. */
  function NumbersEnd(text: string): nat {
    Min(IndexOf(text, '-'), IndexOf(text, '+'))
  }

  /** A version, perhaps with a `v` before it, a label after a hyphen and build metadata after a plus sign. */
  function ReadVersion(text: string): Option<Written> {
    var t := Strip(text);
    var s := if t != "" && t[0] == 'v' then t[1..] else t;
    var end := NumbersEnd(s);
    var numbers := ReadNumbers(s[..end]);
    if numbers.None? then None
    else if end == |s| then Some(Written(numbers.value, None))
    else if s[end] == '+' then (if IsBuild(s[end + 1..]) then Some(Written(numbers.value, None)) else None)
    else
      var rest := s[end + 1..];
      var plus := IndexOf(rest, '+');
      if !IsLabel(rest[..plus]) || (plus < |rest| && !IsBuild(rest[plus + 1..])) then None
      else Some(Written(numbers.value, Some(SplitOn(rest[..plus], '.'))))
  }

  // ---- ranges ------------------------------------------------------------------------------

  /** The operator a comparator starts with, and how much of the text it takes. */
  function ReadOperator(text: string): (Option<Operator>, nat) {
    if text == "" then (None, 0)
    else
      var equal := |text| > 1 && text[1] == '=';
      match text[0]
      case '<' => if equal then (Some(AtMost), 2) else (Some(Below), 1)
      case '>' => if equal then (Some(AtLeast), 2) else (Some(Above), 1)
      case '=' => (Some(Exactly), 1)
      case _ => (None, 0)
  }

  predicate IsBody(text: string, hyphen: bool) {
    && text != "" && IsDigit(text[0])
    && forall i :: 0 <= i < |text| ==> IsAlnum(text[i]) || text[i] == '.' || text[i] == '+' || (hyphen && text[i] == '-')
  }

  function ReadComparator(text: string): Option<Comparator> {
    var t := StripLeft(text);
    var (operator, taken) := ReadOperator(t);
    var body := if taken <= |t| then Strip(t[taken..]) else "";
    if IsBody(body, true) then Some(Comparator(operator, ReadVersion(body))) else None
  }

  function ReadComparators(texts: seq<string>): (each: seq<Option<Comparator>>)
    ensures |each| == |texts| && forall i :: 0 <= i < |texts| ==> each[i] == ReadComparator(texts[i])
  {
    seq(|texts|, i requires 0 <= i < |texts| => ReadComparator(texts[i]))
  }

  /** Two ends with one hyphen between them are a span; anything else is comparators. */
  function ReadAlternative(text: string): Alternative {
    var hyphen := IndexOf(text, '-');
    if hyphen < |text| && IsBody(Strip(text[..hyphen]), false) && IsBody(Strip(text[hyphen + 1..]), false)
    then Span(ReadVersion(Strip(text[..hyphen])), ReadVersion(Strip(text[hyphen + 1..])), ReadVersion(text))
    else Comparators(ReadComparators(SplitOn(text, ',')))
  }

  /** Where two bars first stand in a text, or the text's length. */
  function BarsAt(text: string): (i: nat)
    ensures i <= |text| && (i < |text| ==> i + 2 <= |text| && text[i] == '|' && text[i + 1] == '|')
    ensures forall j :: 0 <= j < i && j + 1 < |text| ==> !(text[j] == '|' && text[j + 1] == '|')
  {
    if |text| < 2 then |text| else if text[0] == '|' && text[1] == '|' then 0 else 1 + BarsAt(text[1..])
  }

  function SplitBars(text: string): seq<string>
    decreases |text|
  {
    var i := BarsAt(text);
    if i == |text| then [text] else [text[..i]] + SplitBars(text[i + 2..])
  }

  function ReadAlternatives(texts: seq<string>): (each: seq<Alternative>)
    ensures |each| == |texts| && forall i :: 0 <= i < |texts| ==> each[i] == ReadAlternative(texts[i])
  {
    seq(|texts|, i requires 0 <= i < |texts| => ReadAlternative(texts[i]))
  }

  function ReadRange(text: string): seq<Alternative> {
    ReadAlternatives(SplitBars(text))
  }

  /** The intervals of a range as it is written, or none when it cannot be read in full. */
  method RangeTextIntervals(text: string, fold: bool) returns (intervals: Option<seq<Interval>>)
    ensures intervals.Some? <==> RangeReadable(ReadRange(text), fold)
    ensures intervals.Some? ==>
              forall k :: IsVersion(k) ==> (InSome(intervals.value, k) <==> RangeCovers(ReadRange(text), fold, k))
  {
    intervals := RangeIntervals(ReadRange(text), fold);
    forall k | IsVersion(k)
      ensures intervals.Some? <==> RangeReadable(ReadRange(text), fold)
      ensures intervals.Some? ==> (InSome(intervals.value, k) <==> RangeCovers(ReadRange(text), fold, k))
    {
      RangeIsItsIntervals(ReadRange(text), fold, k);
    }
    assert IsVersion(VersionKey(Written([0], None), fold));
  }

  /** Whether a range as it is written reaches an accepted interval, under either reading of case. */
  method RangeTextReaches(text: string, accepted: seq<Interval>) returns (reached: bool)
    ensures reached <==> ReachesAs(ReadRange(text), accepted, false) || ReachesAs(ReadRange(text), accepted, true)
    ensures !RangeReadable(ReadRange(text), false) || !RangeReadable(ReadRange(text), true) ==> reached
    ensures forall w, fold :: RangeCovers(ReadRange(text), fold, VersionKey(w, fold)) && InSome(accepted, VersionKey(w, fold)) ==> reached
  {
    reached := Reaches(ReadRange(text), accepted);
    forall w: Written, fold: bool
      ensures !RangeReadable(ReadRange(text), fold) ==> reached
      ensures RangeCovers(ReadRange(text), fold, VersionKey(w, fold)) && InSome(accepted, VersionKey(w, fold)) ==> reached
    {
      NoVersionIsMissed(ReadRange(text), accepted, w, fold);
    }
    var some := Written([0], None);
    assert VersionKey(some, false) == VersionKey(some, false) && VersionKey(some, true) == VersionKey(some, true);
  }

  // ---- writing -----------------------------------------------------------------------------

  function DigitOf(n: nat): char
    requires n < 10
  {
    '0' + n as char
  }

  function Digits(n: nat): (text: string)
    ensures IsDigits(text)
  {
    if n < 10 then [DigitOf(n)] else Digits(n / 10) + [DigitOf(n % 10)]
  }

  lemma {:induction false} DecimalOfDigits(n: nat)
    ensures Decimal(Digits(n)) == n
  {
    var text := Digits(n);
    if n < 10 {
      assert text[..0] == "";
      assert Decimal(text) == 10 * Decimal(text[..0]) + (text[0] as nat - '0' as nat);
    } else {
      DecimalOfDigits(n / 10);
      assert text[..|text| - 1] == Digits(n / 10) && text[|text| - 1] == DigitOf(n % 10);
    }
  }

  function EachWritten(numbers: seq<nat>): (texts: seq<string>)
    ensures |texts| == |numbers| && forall i :: 0 <= i < |numbers| ==> texts[i] == Digits(numbers[i])
  {
    seq(|numbers|, i requires 0 <= i < |numbers| => Digits(numbers[i]))
  }

  /** A version that can be written: some numbers, and a label that starts with a letter or a digit. */
  predicate Writable(w: Written) {
    && w.numbers != []
    && (w.pre.Some? ==>
          && w.pre.value != [] && w.pre.value[0] != "" && IsAlnum(w.pre.value[0][0])
          && forall i, j :: 0 <= i < |w.pre.value| && 0 <= j < |w.pre.value[i]| ==>
               IsAlnum(w.pre.value[i][j]) || w.pre.value[i][j] == '-')
  }

  function WriteVersion(w: Written): string {
    JoinWith(EachWritten(w.numbers), '.') + if w.pre.Some? then "-" + JoinWith(w.pre.value, '.') else ""
  }

  predicate NumberChar(c: char) { IsDigit(c) || c == '.' }

  lemma {:induction false} JoinedChars(parts: seq<string>, c: char, ok: char -> bool)
    requires ok(c) && forall i, j :: 0 <= i < |parts| && 0 <= j < |parts[i]| ==> ok(parts[i][j])
    ensures forall i :: 0 <= i < |JoinWith(parts, c)| ==> ok(JoinWith(parts, c)[i])
    ensures parts != [] && parts[0] != "" ==> JoinWith(parts, c) != "" && JoinWith(parts, c)[0] == parts[0][0]
    decreases |parts|
  {
    if |parts| > 1 {
      assert forall i, j :: 0 <= i < |parts[1..]| && 0 <= j < |parts[1..][i]| ==> ok(parts[1..][i][j]) by {
        assert forall i :: 0 <= i < |parts[1..]| ==> parts[1..][i] == parts[i + 1];
      }
      JoinedChars(parts[1..], c, ok);
    }
  }

  lemma {:induction false} NumbersReadBack(numbers: seq<nat>)
    requires numbers != []
    ensures var text := JoinWith(EachWritten(numbers), '.');
            && ReadNumbers(text) == Some(numbers) && text != "" && IsDigit(text[0])
            && forall i :: 0 <= i < |text| ==> NumberChar(text[i])
  {
    var texts := EachWritten(numbers);
    SplitOfJoin(texts, '.');
    JoinedChars(texts, '.', NumberChar);
    forall i | 0 <= i < |numbers| ensures Decimal(texts[i]) == numbers[i] { DecimalOfDigits(numbers[i]); }
    assert ReadNumbers(JoinWith(texts, '.')).value == numbers;
  }

  lemma {:induction false} LabelReadsBack(pre: seq<string>)
    requires Writable(Written([0], Some(pre)))
    ensures var text := JoinWith(pre, '.');
            SplitOn(text, '.') == pre && IsLabel(text) && Lacks(text, '+')
  {
    SplitOfJoin(pre, '.');
    JoinedChars(pre, '.', IsLabelChar);
  }

  lemma {:induction false} NumbersEndAt(numbers: string, rest: string)
    requires forall i :: 0 <= i < |numbers| ==> NumberChar(numbers[i])
    requires rest == "" || rest[0] == '-' || rest[0] == '+'
    ensures NumbersEnd(numbers + rest) == |numbers|
  {
    var text := numbers + rest;
    assert forall i :: 0 <= i < |numbers| ==> text[i] == numbers[i];
    assert rest != "" ==> text[|numbers|] == rest[0];
  }

  lemma {:induction false} ReleaseIsRead(text: string, numbers: seq<nat>)
    requires text != "" && IsDigit(text[0]) && Strip(text) == text
    requires (forall i :: 0 <= i < |text| ==> NumberChar(text[i])) && ReadNumbers(text) == Some(numbers)
    ensures ReadVersion(text) == Some(Written(numbers, None))
  {
    NumbersEndAt(text, "");
    assert text + "" == text && text[..|text|] == text;
  }

  lemma {:induction false} PreReleaseIsRead(front: string, tagged: string, numbers: seq<nat>)
    requires front != "" && IsDigit(front[0]) && Strip(front + ("-" + tagged)) == front + ("-" + tagged)
    requires (forall i :: 0 <= i < |front| ==> NumberChar(front[i])) && ReadNumbers(front) == Some(numbers)
    requires IsLabel(tagged) && Lacks(tagged, '+')
    ensures ReadVersion(front + ("-" + tagged)) == Some(Written(numbers, Some(SplitOn(tagged, '.'))))
  {
    NumbersEndAt(front, "-" + tagged);
    AroundTheHyphen(front, tagged);
    assert IndexOf(tagged, '+') == |tagged| && tagged[..|tagged|] == tagged;
  }

  lemma {:induction false} AroundTheHyphen(front: string, tagged: string)
    requires front != ""
    ensures var text := front + ("-" + tagged);
            text[0] == front[0] && text[..|front|] == front && text[|front|] == '-' && text[|front| + 1..] == tagged
  {
  }

  lemma {:induction false} VersionIsTrimmed(w: Written)
    requires Writable(w)
    ensures var text := WriteVersion(w); text != "" && IsDigit(text[0]) && Strip(text) == text
  {
    var front := JoinWith(EachWritten(w.numbers), '.');
    NumbersReadBack(w.numbers);
    var text := WriteVersion(w);
    assert text[0] == front[0];
    if w.pre.Some? {
      LabelReadsBack(w.pre.value);
      var tagged := JoinWith(w.pre.value, '.');
      assert text[|text| - 1] == tagged[|tagged| - 1];
    } else {
      assert text == front;
    }
    TrimmedIsStripped(text);
  }

  /** Every writable version reads back as it was written. */
  lemma {:induction false} VersionReadsBack(w: Written)
    requires Writable(w)
    ensures ReadVersion(WriteVersion(w)) == Some(w)
  {
    var front := JoinWith(EachWritten(w.numbers), '.');
    NumbersReadBack(w.numbers);
    VersionIsTrimmed(w);
    if w.pre.Some? {
      LabelReadsBack(w.pre.value);
      PreReleaseIsRead(front, JoinWith(w.pre.value, '.'), w.numbers);
    } else {
      assert WriteVersion(w) == front;
      ReleaseIsRead(front, w.numbers);
    }
  }

  /** Build metadata after a plus sign is no part of a version. */
  lemma {:induction false} BuildIsIgnored(w: Written, build: string)
    requires Writable(w) && IsBuild(build)
    ensures ReadVersion(WriteVersion(w) + ("+" + build)) == Some(w)
  {
    var front := JoinWith(EachWritten(w.numbers), '.');
    NumbersReadBack(w.numbers);
    VersionIsTrimmed(w);
    BuildIsTrimmed(WriteVersion(w), build);
    if w.pre.Some? {
      var tagged := JoinWith(w.pre.value, '.');
      LabelReadsBack(w.pre.value);
      InOnePiece(front, "-" + tagged, "+" + build);
      LabelledBuild(front, tagged, build, w.numbers);
    } else {
      InOnePiece(front, "", "+" + build);
      assert "" + ("+" + build) == "+" + build;
      ReleasedBuild(front, build, w.numbers);
    }
  }

  lemma {:induction false} BuildIsTrimmed(version: string, build: string)
    requires version != "" && IsDigit(version[0]) && IsBuild(build)
    ensures Strip(version + ("+" + build)) == version + ("+" + build)
  {
    var text := version + ("+" + build);
    assert text[0] == version[0] && text[|text| - 1] == build[|build| - 1];
    TrimmedIsStripped(text);
  }

  lemma {:induction false} InOnePiece(a: string, b: string, c: string)
    ensures a + b + c == a + (b + c)
  {
  }

  lemma {:induction false} ReleasedBuild(front: string, build: string, numbers: seq<nat>)
    requires front != "" && IsDigit(front[0]) && Strip(front + ("+" + build)) == front + ("+" + build) && IsBuild(build)
    requires (forall i :: 0 <= i < |front| ==> NumberChar(front[i])) && ReadNumbers(front) == Some(numbers)
    ensures ReadVersion(front + ("+" + build)) == Some(Written(numbers, None))
  {
    var text := front + ("+" + build);
    NumbersEndAt(front, "+" + build);
    assert text[..|front|] == front && text[|front|] == '+' && text[|front| + 1..] == build && text[0] == front[0];
  }

  lemma {:induction false} LabelledBuild(front: string, tagged: string, build: string, numbers: seq<nat>)
    requires var text := front + ("-" + tagged + ("+" + build)); Strip(text) == text
    requires front != "" && IsDigit(front[0]) && IsLabel(tagged) && Lacks(tagged, '+') && IsBuild(build)
    requires (forall i :: 0 <= i < |front| ==> NumberChar(front[i])) && ReadNumbers(front) == Some(numbers)
    ensures ReadVersion(front + ("-" + tagged + ("+" + build))) == Some(Written(numbers, Some(SplitOn(tagged, '.'))))
  {
    var rest := tagged + ("+" + build);
    assert "-" + tagged + ("+" + build) == "-" + rest;
    NumbersEndAt(front, "-" + rest);
    AroundTheHyphen(front, rest);
    PlusAfter(tagged, build);
    ReadLabelled(front + ("-" + rest), |front|, rest, |tagged|, numbers);
  }

  lemma {:induction false} ReadLabelled(text: string, end: nat, rest: string, plus: nat, numbers: seq<nat>)
    requires text != "" && text[0] != 'v' && Strip(text) == text && NumbersEnd(text) == end < |text| && text[end] == '-'
    requires ReadNumbers(text[..end]) == Some(numbers) && rest == text[end + 1..]
    requires IndexOf(rest, '+') == plus < |rest| && IsLabel(rest[..plus]) && IsBuild(rest[plus + 1..])
    ensures ReadVersion(text) == Some(Written(numbers, Some(SplitOn(rest[..plus], '.'))))
  {
  }

  lemma {:induction false} PlusAfter(tagged: string, build: string)
    requires Lacks(tagged, '+')
    ensures var rest := tagged + ("+" + build);
            IndexOf(rest, '+') == |tagged| < |rest| && rest[..|tagged|] == tagged && rest[|tagged| + 1..] == build
  {
    var rest := tagged + ("+" + build);
    assert rest[|tagged|] == '+' && forall i :: 0 <= i < |tagged| ==> rest[i] == tagged[i];
  }

  /** A version without an operator is a comparator that asks for exactly that version. */
  lemma {:induction false} BareReadsBack(w: Written)
    requires Writable(w)
    ensures ReadComparator(WriteVersion(w)) == Some(Comparator(None, Some(w)))
  {
    var text := WriteVersion(w);
    VersionIsTrimmed(w);
    BodyReadsBack(w);
    DigitsAreNoOperator(text);
    ReadInParts(text, text, None, 0, text);
  }

  lemma {:induction false} DigitsAreNoOperator(text: string)
    requires text != "" && IsDigit(text[0]) && Strip(text) == text
    ensures StripLeft(text) == text && ReadOperator(text) == (None, 0) && text[0..] == text
  {
  }

  /** Two releases with a hyphen between them are the span from the first to the second, and at once the first
      with the second for its label. */
  lemma {:induction false} SpanReadsBack(first: seq<nat>, last: seq<nat>)
    requires first != [] && last != []
    ensures ReadAlternative(WriteVersion(Written(first, None)) + ("-" + WriteVersion(Written(last, None)))) ==
            Span(Some(Written(first, None)), Some(Written(last, None)), Some(Written(first, Some(EachWritten(last)))))
  {
    var a, b := Written(first, None), Written(last, None);
    ReleaseIsBody(first);
    ReleaseIsBody(last);
    SpanInParts(WriteVersion(a), WriteVersion(b));
    VersionReadsBack(a);
    VersionReadsBack(b);
    LabelledByNumbers(first, last);
  }

  lemma {:induction false} SpanInParts(front: string, back: string)
    requires IsBody(front, false) && IsBody(back, false) && Lacks(front, '-') && Strip(front) == front && Strip(back) == back
    ensures ReadAlternative(front + ("-" + back)) ==
            Span(ReadVersion(front), ReadVersion(back), ReadVersion(front + ("-" + back)))
  {
    AroundTheHyphen(front, back);
    FirstHyphen(front, back);
    ReadAsSpan(front + ("-" + back), |front|, front, back);
  }

  lemma {:induction false} ReadAsSpan(text: string, hyphen: nat, front: string, back: string)
    requires IndexOf(text, '-') == hyphen < |text| && Strip(text[..hyphen]) == front && Strip(text[hyphen + 1..]) == back
    requires IsBody(front, false) && IsBody(back, false)
    ensures ReadAlternative(text) == Span(ReadVersion(front), ReadVersion(back), ReadVersion(text))
  {
  }

  lemma {:induction false} LabelledByNumbers(first: seq<nat>, last: seq<nat>)
    requires first != [] && last != []
    ensures ReadVersion(WriteVersion(Written(first, None)) + ("-" + WriteVersion(Written(last, None)))) ==
            Some(Written(first, Some(EachWritten(last))))
  {
    var whole := Written(first, Some(EachWritten(last)));
    NumbersLabel(last);
    VersionReadsBack(whole);
    PlainRelease(first);
    PlainRelease(last);
  }

  lemma {:induction false} PlainRelease(numbers: seq<nat>)
    ensures WriteVersion(Written(numbers, None)) == JoinWith(EachWritten(numbers), '.')
  {
  }

  lemma {:induction false} ReleaseIsBody(numbers: seq<nat>)
    requires numbers != []
    ensures var text := WriteVersion(Written(numbers, None)); IsBody(text, false) && Lacks(text, '-') && Strip(text) == text
  {
    NumbersReadBack(numbers);
    PlainRelease(numbers);
    VersionIsTrimmed(Written(numbers, None));
  }

  lemma {:induction false} NumbersLabel(numbers: seq<nat>)
    requires numbers != []
    ensures Writable(Written([0], Some(EachWritten(numbers))))
  {
    var texts := EachWritten(numbers);
    forall i, j | 0 <= i < |texts| && 0 <= j < |texts[i]| ensures IsAlnum(texts[i][j]) { assert IsDigits(texts[i]); }
    assert IsDigits(texts[0]);
  }

  lemma {:induction false} FirstHyphen(front: string, back: string)
    requires Lacks(front, '-')
    ensures IndexOf(front + ("-" + back), '-') == |front|
  {
    var text := front + ("-" + back);
    assert text[|front|] == '-' && forall i :: 0 <= i < |front| ==> text[i] == front[i];
  }

  function OperatorText(operator: Operator): string {
    match operator case AtMost => "<=" case AtLeast => ">=" case Below => "<" case Above => ">" case Exactly => "="
  }

  function WriteComparator(operator: Operator, w: Written): string {
    " " + OperatorText(operator) + " " + WriteVersion(w)
  }

  predicate BodyChar(c: char) { IsAlnum(c) || c == '.' || c == '+' || c == '-' }

  lemma {:induction false} VersionIsBody(w: Written)
    requires Writable(w)
    ensures IsBody(WriteVersion(w), true) && forall i :: 0 <= i < |WriteVersion(w)| ==> BodyChar(WriteVersion(w)[i])
  {
    var front, text := JoinWith(EachWritten(w.numbers), '.'), WriteVersion(w);
    NumbersReadBack(w.numbers);
    VersionIsTrimmed(w);
    assert forall i :: 0 <= i < |front| ==> BodyChar(front[i]);
    if w.pre.Some? {
      var tagged := JoinWith(w.pre.value, '.');
      LabelReadsBack(w.pre.value);
      assert forall i :: 0 <= i < |tagged| ==> BodyChar(tagged[i]);
      assert text == front + ("-" + tagged);
    } else {
      assert text == front;
    }
  }

  lemma {:induction false} OperatorIsRead(operator: Operator, rest: string)
    ensures ReadOperator(OperatorText(operator) + (" " + rest)) == (Some(operator), |OperatorText(operator)|)
  {
    var op := OperatorText(operator);
    var text := op + (" " + rest);
    assert text[0] == op[0] && text[|op|] == ' ';
    assert |op| == 2 ==> text[1] == op[1];
  }

  lemma {:induction false} SpacesAreStripped(op: string, version: string)
    requires op != "" && !IsSpace(op[0]) && Strip(version) == version
    ensures StripLeft(" " + op + " " + version) == op + (" " + version)
    ensures Strip((op + (" " + version))[|op|..]) == version
  {
    var t := op + (" " + version);
    assert " " + op + " " + version == " " + t && (" " + t)[1..] == t && t[0] == op[0];
    assert t[|op|..] == " " + version && (" " + version)[1..] == version;
    assert StripLeft(" " + version) == StripLeft(version);
  }

  /** A comparator with an operator reads back as it was written. */
  lemma {:induction false} ComparatorReadsBack(operator: Operator, w: Written)
    requires Writable(w)
    ensures ReadComparator(WriteComparator(operator, w)) == Some(Comparator(Some(operator), Some(w)))
  {
    var op, version := OperatorText(operator), WriteVersion(w);
    VersionIsTrimmed(w);
    SpacesAreStripped(op, version);
    OperatorIsRead(operator, version);
    BodyReadsBack(w);
    ReadInParts(WriteComparator(operator, w), op + (" " + version), Some(operator), |op|, version);
  }

  lemma {:induction false} BodyReadsBack(w: Written)
    requires Writable(w)
    ensures IsBody(WriteVersion(w), true) && ReadVersion(WriteVersion(w)) == Some(w)
  {
    VersionIsBody(w);
    VersionReadsBack(w);
  }

  lemma {:induction false} ReadInParts(text: string, t: string, operator: Option<Operator>, taken: nat, body: string)
    requires StripLeft(text) == t && ReadOperator(t) == (operator, taken)
    requires taken <= |t| && Strip(t[taken..]) == body && IsBody(body, true)
    ensures ReadComparator(text) == Some(Comparator(operator, ReadVersion(body)))
  {
  }

  function EachComparatorWritten(each: seq<(Operator, Written)>): (texts: seq<string>)
    ensures |texts| == |each| && forall i :: 0 <= i < |each| ==> texts[i] == WriteComparator(each[i].0, each[i].1)
  {
    seq(|each|, i requires 0 <= i < |each| => WriteComparator(each[i].0, each[i].1))
  }

  function WriteAlternative(each: seq<(Operator, Written)>): string {
    JoinWith(EachComparatorWritten(each), ',')
  }

  function AsRead(each: seq<(Operator, Written)>): seq<Option<Comparator>> {
    seq(|each|, i requires 0 <= i < |each| => Some(Comparator(Some(each[i].0), Some(each[i].1))))
  }

  predicate AllWritable(each: seq<(Operator, Written)>) {
    each != [] && forall i :: 0 <= i < |each| ==> Writable(each[i].1)
  }

  lemma {:induction false} ComparatorLacks(operator: Operator, w: Written)
    requires Writable(w)
    ensures Lacks(WriteComparator(operator, w), ',') && Lacks(WriteComparator(operator, w), '|')
    ensures var text := WriteComparator(operator, w); |text| > 1 && text[0] == ' ' && !IsDigit(text[1]) && !IsSpace(text[1])
  {
    VersionIsBody(w);
    var op, version := OperatorText(operator), WriteVersion(w);
    assert forall i :: 0 <= i < |op| ==> op[i] != ',' && op[i] != '|';
    assert WriteComparator(operator, w) == " " + (op + (" " + version));
  }

  /** A list of comparators does not read as a span: it starts with an operator. */
  lemma {:induction false} NoSpan(text: string)
    requires |text| > 1 && text[0] == ' ' && !IsDigit(text[1]) && !IsSpace(text[1])
    ensures ReadAlternative(text) == Comparators(ReadComparators(SplitOn(text, ',')))
  {
    var hyphen := IndexOf(text, '-');
    if hyphen < |text| {
      var front := text[..hyphen];
      if hyphen > 1 {
        assert front[1..][0] == text[1] && StripLeft(front) == front[1..];
        StripRightStarts(front[1..]);
      }
      assert hyphen == 1 ==> front == " " && Strip(front) == "";
    }
  }

  lemma {:induction false} AlternativeStarts(each: seq<(Operator, Written)>)
    requires AllWritable(each)
    ensures var text := WriteAlternative(each); |text| > 1 && text[0] == ' ' && !IsDigit(text[1]) && !IsSpace(text[1])
  {
    var texts := EachComparatorWritten(each);
    ComparatorLacks(each[0].0, each[0].1);
    assert texts[0] <= WriteAlternative(each);
  }

  /** Comparators with operators read back, in their order, as they were written. */
  lemma {:induction false} AlternativeReadsBack(each: seq<(Operator, Written)>)
    requires AllWritable(each)
    ensures ReadAlternative(WriteAlternative(each)) == Comparators(AsRead(each))
  {
    var texts := EachComparatorWritten(each);
    forall i | 0 <= i < |each|
      ensures Lacks(texts[i], ',') && ReadComparator(texts[i]) == Some(Comparator(Some(each[i].0), Some(each[i].1)))
    {
      ComparatorLacks(each[i].0, each[i].1);
      ComparatorReadsBack(each[i].0, each[i].1);
    }
    SplitOfJoin(texts, ',');
    AlternativeStarts(each);
    NoSpan(WriteAlternative(each));
    assert ReadComparators(texts) == AsRead(each);
  }

  // ---- whole ranges ------------------------------------------------------------------------

  function JoinBars(texts: seq<string>): string {
    if texts == [] then "" else if |texts| == 1 then texts[0] else texts[0] + "||" + JoinBars(texts[1..])
  }

  lemma {:induction false} BarsNowhere(text: string)
    requires Lacks(text, '|')
    ensures BarsAt(text) == |text|
    decreases |text|
  {
    if |text| >= 2 { BarsNowhere(text[1..]); }
  }

  lemma {:induction false} BarsAfter(first: string, rest: string)
    requires Lacks(first, '|')
    ensures SplitBars(first + "||" + rest) == [first] + SplitBars(rest)
  {
    var text := first + "||" + rest;
    var i := BarsAt(text);
    assert forall j :: 0 <= j < |first| ==> text[j] == first[j];
    assert text[|first|] == '|' && text[|first| + 1] == '|';
    assert i == |first|;
    assert text[..i] == first && text[i + 2..] == rest;
  }

  lemma {:induction false} SplitOfBars(texts: seq<string>)
    requires texts != [] && forall i :: 0 <= i < |texts| ==> Lacks(texts[i], '|')
    ensures SplitBars(JoinBars(texts)) == texts
    decreases |texts|
  {
    if |texts| == 1 {
      BarsNowhere(texts[0]);
      assert texts == [texts[0]];
    } else {
      SplitOfBars(texts[1..]);
      MoreBars(texts);
    }
  }

  lemma {:induction false} MoreBars(texts: seq<string>)
    requires |texts| > 1 && Lacks(texts[0], '|') && SplitBars(JoinBars(texts[1..])) == texts[1..]
    ensures SplitBars(JoinBars(texts)) == texts
  {
    BarsAfter(texts[0], JoinBars(texts[1..]));
    assert texts == [texts[0]] + texts[1..];
  }

  function EachAlternativeWritten(range: seq<seq<(Operator, Written)>>): (texts: seq<string>)
    ensures |texts| == |range| && forall i :: 0 <= i < |range| ==> texts[i] == WriteAlternative(range[i])
  {
    seq(|range|, i requires 0 <= i < |range| => WriteAlternative(range[i]))
  }

  function WriteRange(range: seq<seq<(Operator, Written)>>): string {
    JoinBars(EachAlternativeWritten(range))
  }

  lemma {:induction false} AlternativeLacksBars(each: seq<(Operator, Written)>)
    requires AllWritable(each)
    ensures Lacks(WriteAlternative(each), '|')
  {
    var texts := EachComparatorWritten(each);
    forall i, j | 0 <= i < |texts| && 0 <= j < |texts[i]| ensures texts[i][j] != '|' {
      ComparatorLacks(each[i].0, each[i].1);
    }
    JoinedChars(texts, ',', (c: char) => c != '|');
  }

  /** Every range written with operators reads back, alternative by alternative, as it was written. */
  lemma {:induction false} RangeReadsBack(range: seq<seq<(Operator, Written)>>)
    requires range != [] && forall i :: 0 <= i < |range| ==> AllWritable(range[i])
    ensures |ReadRange(WriteRange(range))| == |range|
    ensures forall i :: 0 <= i < |range| ==> ReadRange(WriteRange(range))[i] == Comparators(AsRead(range[i]))
  {
    var texts := EachAlternativeWritten(range);
    forall i | 0 <= i < |range|
      ensures Lacks(texts[i], '|') && ReadAlternative(texts[i]) == Comparators(AsRead(range[i]))
    {
      AlternativeLacksBars(range[i]);
      AlternativeReadsBack(range[i]);
    }
    SplitOfBars(texts);
  }

  /** No version is missed by a range as it is written: one that satisfies every comparator of one of its
      alternatives, and lies in an accepted interval, makes the text reach it. */
  lemma {:induction false} WrittenRangeMissesNothing(
    range: seq<seq<(Operator, Written)>>, accepted: seq<Interval>, i: nat, w: Written, fold: bool)
    requires i < |range| && forall j :: 0 <= j < |range| ==> AllWritable(range[j])
    requires forall j :: 0 <= j < |range[i]| ==> Satisfies(range[i][j].0, VersionKey(range[i][j].1, fold), VersionKey(w, fold))
    requires InSome(accepted, VersionKey(w, fold))
    ensures ReachesAs(ReadRange(WriteRange(range)), accepted, fold)
  {
    RangeReadsBack(range);
    var read := ReadRange(WriteRange(range));
    assert Readable(read[i], fold) && Covers(read[i], fold, VersionKey(w, fold));
    NoVersionIsMissed(read, accepted, w, fold);
  }

  // ---- the second reading ------------------------------------------------------------------

  /** A range from one version up to another. */
  function UpTo(low: Written, high: Written): seq<seq<(Operator, Written)>> {
    [[(AtLeast, low), (Below, high)]]
  }

  function UpToRead(low: Written, high: Written): seq<Option<Comparator>> {
    [Some(Comparator(Some(AtLeast), Some(low))), Some(Comparator(Some(Below), Some(high)))]
  }

  lemma {:induction false} UpToReadsBack(low: Written, high: Written)
    requires Writable(low) && Writable(high)
    ensures ReadRange(WriteRange(UpTo(low, high))) == [Comparators(UpToRead(low, high))]
  {
    var range := UpTo(low, high);
    assert AllWritable(range[0]);
    RangeReadsBack(range);
    AsUpTo(low, high);
  }

  lemma {:induction false} AsUpTo(low: Written, high: Written)
    ensures AsRead([(AtLeast, low), (Below, high)]) == UpToRead(low, high)
  {
  }

  lemma {:induction false} BoundsOfUpTo(low: Written, high: Written, fold: bool)
    ensures Intervals([Comparators(UpToRead(low, high))], fold) ==
            Some([Interval(Some(VersionKey(low, fold)), Some(VersionKey(high, fold)))])
  {
    var range := [Comparators(UpToRead(low, high))];
    TwoBounds(UpToRead(low, high), low, high, fold);
    var bounds := Interval(Some(VersionKey(low, fold)), Some(VersionKey(high, fold)));
    assert range[..0] == [] && Intervals(range[..0], fold) == Some([]);
    assert IntervalsOf(range[0], fold) == Some([bounds]);
    assert [] + [bounds] == [bounds];
  }

  lemma {:induction false} TwoBounds(each: seq<Option<Comparator>>, low: Written, high: Written, fold: bool)
    requires |each| == 2 && each[0] == Some(Comparator(Some(AtLeast), Some(low))) && each[1] == Some(Comparator(Some(Below), Some(high)))
    ensures Bounds(each, fold) == Some(Interval(Some(VersionKey(low, fold)), Some(VersionKey(high, fold))))
  {
    assert each[..1][..0] == [] && each[..1][0] == each[0];
    assert Bounds(each[..1], fold) == Some(Interval(Some(VersionKey(low, fold)), None));
  }

  /** An interval that ends no later than it starts overlaps nothing. */
  lemma {:induction false} EmptyOverlapsNothing(low: Key, high: Key, other: Interval)
    requires KeyLe(high, low)
    ensures !Overlap(Interval(Some(low), Some(high)), other)
  {
    var first := if other.low.Some? then Later(low, other.low.value) else low;
    var last := if other.high.Some? then Earlier(high, other.high.value) else high;
    KeysTotal(first, first);
    if other.low.Some? { LaterIsBoth(low, other.low.value, first); }
    if KeyLt(first, last) {
      if other.high.Some? { EarlierIsBoth(high, other.high.value, first); }
      KeysTransitive(high, low, first);
    }
  }

  /** A range whose end is not above its start, by the reading it is read with, reaches nothing. */
  lemma {:induction false} EmptyReachesNothing(low: Written, high: Written, accepted: seq<Interval>, fold: bool)
    requires KeyLe(VersionKey(high, fold), VersionKey(low, fold))
    ensures !ReachesAs([Comparators(UpToRead(low, high))], accepted, fold)
  {
    BoundsOfUpTo(low, high, fold);
    forall j | 0 <= j < |accepted|
      ensures !Overlap(Interval(Some(VersionKey(low, fold)), Some(VersionKey(high, fold))), accepted[j])
    {
      EmptyOverlapsNothing(VersionKey(low, fold), VersionKey(high, fold), accepted[j]);
    }
  }

  /** A range whose end is above its start reaches what its start lies in. */
  lemma {:induction false} StartIsReached(low: Written, high: Written, accepted: seq<Interval>, fold: bool)
    requires KeyLt(VersionKey(low, fold), VersionKey(high, fold)) && InSome(accepted, VersionKey(low, fold))
    ensures ReachesAs([Comparators(UpToRead(low, high))], accepted, fold)
  {
    var k := VersionKey(low, fold);
    var own := Interval(Some(k), Some(VersionKey(high, fold)));
    BoundsOfUpTo(low, high, fold);
    KeysTotal(k, k);
    var j :| 0 <= j < |accepted| && Contains(accepted[j], k);
    OverlapIsSharing(own, accepted[j], k);
    assert [own][0] == own;
  }

  /** A range that starts with one pre-release and ends below another is read both ways: where the first is
      below the second only without regard to case, the range by codes covers nothing and reaches no
      interval, and the range without regard to case reaches every interval its start lies in. */
  lemma {:induction false} SecondReadingReaches(low: Written, high: Written, accepted: seq<Interval>)
    requires Writable(low) && Writable(high) && |low.numbers| == 3 && |high.numbers| == 3
    requires Precedes(low, high, true) && !Precedes(low, high, false)
    ensures InSome(accepted, VersionKey(low, true)) ==> ReachesAs(ReadRange(WriteRange(UpTo(low, high))), accepted, true)
    ensures !ReachesAs(ReadRange(WriteRange(UpTo(low, high))), accepted, false)
  {
    UpToReadsBack(low, high);
    KeysFollowSemanticVersioning(low, high, true);
    KeysFollowSemanticVersioning(low, high, false);
    EmptyReachesNothing(low, high, accepted, false);
    if InSome(accepted, VersionKey(low, true)) { StartIsReached(low, high, accepted, true); }
  }

  const PREVIEW := Written([7, 7, 0], Some(["preview", "1"]))
  const CANDIDATE := Written([7, 7, 0], Some(["RC", "1"]))

  /** By their codes a capital is below every small letter, and without regard to case it is not. */
  lemma {:induction false} FirstLettersDecide(p: seq<string>, q: seq<string>, fold: bool)
    requires p != [] && q != [] && p[0] != "" && q[0] != "" && !IsDigits(p[0]) && !IsDigits(q[0])
    requires Letter(p[0][0], fold) != Letter(q[0][0], fold)
    ensures LabelPrecedes(p, q, fold) <==> Letter(p[0][0], fold) < Letter(q[0][0], fold)
  {
    var x, y := p[0], q[0];
    if Letter(x[0], fold) < Letter(y[0], fold) {
      assert WordDiffersAt(x, y, 0, fold);
      assert LabelDiffersAt(p, q, 0, fold);
    }
    if LabelPrecedes(p, q, fold) {
      LabelsDifferFirst(p, q, fold);
      var k: nat :| WordDiffersAt(x, y, k, fold);
    }
  }

  /** The range from 7.7.0-preview.1 to below 7.7.0-RC.1 reaches the series 7.7, by its second reading alone. */
  lemma {:induction false} PreviewsBelowCandidates()
    ensures var accepted := [Interval(Some(SeriesStart([7, 7])), None)];
            var range := ReadRange(WriteRange(UpTo(PREVIEW, CANDIDATE)));
            ReachesAs(range, accepted, true) && !ReachesAs(range, accepted, false)
  {
    var accepted := [Interval(Some(SeriesStart([7, 7])), None)];
    CandidatesAreWritable();
    CandidatesCompare();
    SecondReadingReaches(PREVIEW, CANDIDATE, accepted);
    SeriesHolds(PREVIEW, true);
    assert accepted[0] == Interval(Some(SeriesStart([7, 7])), None);
  }

  lemma {:induction false} CandidatesAreWritable()
    ensures Writable(PREVIEW) && Writable(CANDIDATE)
  {
    var p, q := PREVIEW.pre.value, CANDIDATE.pre.value;
    assert p[0] == "preview" && p[1] == "1" && q[0] == "RC" && q[1] == "1";
  }

  lemma {:induction false} CandidatesCompare()
    ensures Precedes(PREVIEW, CANDIDATE, true) && !Precedes(PREVIEW, CANDIDATE, false)
  {
    var p, q := PREVIEW.pre.value, CANDIDATE.pre.value;
    assert p[0] == "preview" && q[0] == "RC" && p[0][0] == 'p' && q[0][0] == 'R';
    FirstLettersDecide(p, q, true);
    FirstLettersDecide(p, q, false);
  }

  /** A series holds the pre-releases of its versions. */
  lemma {:induction false} SeriesHolds(w: Written, fold: bool)
    requires w.numbers == [7, 7, 0]
    ensures Contains(Interval(Some(SeriesStart([7, 7])), None), VersionKey(w, fold))
  {
    assert Padded([7, 7]) == Padded(w.numbers);
    LexTotal(Padded([7, 7]), Padded(w.numbers));
  }
}
