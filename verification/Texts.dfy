/** Text as the release scripts take it apart: stripped of space, and split at separators. */
module Texts {

  /** What Python's `str.strip` removes. */
  predicate IsSpace(c: char) {
    var n := c as int;
    0x09 <= n <= 0x0d || 0x1c <= n <= 0x20 || n == 0x85 || n == 0xa0 || n == 0x1680 || 0x2000 <= n <= 0x200a
    || n == 0x2028 || n == 0x2029 || n == 0x202f || n == 0x205f || n == 0x3000
  }

  function StripLeft(s: string): (r: string)
    ensures |r| <= |s| && (r != "" ==> !IsSpace(r[0]))
  {
    if s != "" && IsSpace(s[0]) then StripLeft(s[1..]) else s
  }

  function StripRight(s: string): (r: string)
    ensures |r| <= |s|
  {
    if s != "" && IsSpace(s[|s| - 1]) then StripRight(s[..|s| - 1]) else s
  }

  function Strip(s: string): (r: string)
    ensures |r| <= |s|
  {
    StripRight(StripLeft(s))
  }

  lemma {:induction false} StripRightKeeps(text: string, c: char, rest: string)
    requires !IsSpace(c)
    ensures |StripRight(text + [c] + rest)| > |text|
    decreases |rest|
  {
    var whole := text + [c] + rest;
    if rest != "" && IsSpace(rest[|rest| - 1]) {
      assert whole[..|whole| - 1] == text + [c] + rest[..|rest| - 1];
      StripRightKeeps(text, c, rest[..|rest| - 1]);
    }
  }

  lemma {:induction false} StrippedStarts(text: string)
    ensures Strip(text) != "" ==> !IsSpace(Strip(text)[0])
  {
    StripRightStarts(StripLeft(text));
  }

  lemma {:induction false} StripRightStarts(text: string)
    ensures StripRight(text) != "" ==> text != "" && StripRight(text)[0] == text[0]
    decreases |text|
  {
    if text != "" && IsSpace(text[|text| - 1]) { StripRightStarts(text[..|text| - 1]); }
  }

  /** Text with no space at either end strips to itself. */
  lemma {:induction false} TrimmedIsStripped(text: string)
    requires text != "" ==> !IsSpace(text[0]) && !IsSpace(text[|text| - 1])
    ensures Strip(text) == text && StripLeft(text) == text
  {
  }

  // ---- splitting ---------------------------------------------------------------------------

  /** Where a character first stands in a text, or the text's length. */
  function IndexOf(text: string, c: char): (i: nat)
    ensures i <= |text| && (i < |text| ==> text[i] == c) && forall j :: 0 <= j < i ==> text[j] != c
  {
    if text == "" || text[0] == c then 0 else 1 + IndexOf(text[1..], c)
  }

  function SplitOn(text: string, c: char): (parts: seq<string>)
    ensures parts != []
    decreases |text|
  {
    var i := IndexOf(text, c);
    if i == |text| then [text] else [text[..i]] + SplitOn(text[i + 1..], c)
  }

  function JoinWith(parts: seq<string>, c: char): string {
    if parts == [] then "" else if |parts| == 1 then parts[0] else parts[0] + [c] + JoinWith(parts[1..], c)
  }

  predicate Lacks(text: string, c: char) {
    forall i :: 0 <= i < |text| ==> text[i] != c
  }

  lemma {:induction false} SplitFirst(first: string, c: char, rest: string)
    ensures Lacks(first, c) ==> SplitOn(first + [c] + rest, c) == [first] + SplitOn(rest, c)
    ensures !Lacks(first, c) ==> SplitOn(first + [c] + rest, c)[0] != first
  {
    var text := first + [c] + rest;
    var i := IndexOf(text, c);
    assert forall j :: 0 <= j < |first| ==> text[j] == first[j];
    assert text[|first|] == c;
    if Lacks(first, c) {
      assert i == |first| && text[..i] == first && text[i + 1..] == rest;
    } else {
      assert i < |first| && SplitOn(text, c)[0] == text[..i];
    }
  }

  /** Splitting what was joined gives back the parts, if and only if there are some and none holds the
      separator. */
  lemma {:induction false} SplitOfJoin(parts: seq<string>, c: char)
    ensures SplitOn(JoinWith(parts, c), c) == parts <==> parts != [] && AllLack(parts, c)
    decreases |parts|
  {
    if |parts| == 1 {
      SplitOfOne(parts[0], c);
    } else if |parts| > 1 {
      var first, rest := parts[0], parts[1..];
      var tail := JoinWith(rest, c);
      SplitOfJoin(rest, c);
      SplitFirst(first, c, tail);
      AllLackFrom(parts, c);
      assert JoinWith(parts, c) == first + [c] + tail;
      if Lacks(first, c) {
        assert SplitOn(JoinWith(parts, c), c) == [first] + SplitOn(tail, c);
        assert parts == [first] + rest;
        assert ([first] + SplitOn(tail, c))[1..] == SplitOn(tail, c);
      }
    }
  }

  predicate AllLack(parts: seq<string>, c: char) {
    forall i :: 0 <= i < |parts| ==> Lacks(parts[i], c)
  }

  lemma {:induction false} AllLackFrom(parts: seq<string>, c: char)
    requires parts != []
    ensures AllLack(parts, c) <==> Lacks(parts[0], c) && AllLack(parts[1..], c)
  {
    assert forall i :: 0 < i < |parts| ==> parts[i] == parts[1..][i - 1];
  }

  lemma {:induction false} SplitOfOne(text: string, c: char)
    ensures SplitOn(text, c) == [text] <==> Lacks(text, c)
  {
    var i := IndexOf(text, c);
    if i < |text| { assert SplitOn(text, c)[0] == text[..i]; }
  }
}
