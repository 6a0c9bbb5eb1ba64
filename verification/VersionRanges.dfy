/** Ranges of versions as half-open intervals of keys, and whether a range reaches an accepted one. */
module VersionRanges {
  import opened Common
  import opened VersionOrder

  datatype Operator = AtMost | AtLeast | Below | Above | Exactly

  /** A comparator that could be taken apart; its version may still be unreadable. */
  datatype Comparator = Comparator(operator: Option<Operator>, version: Option<Written>)

  /** One alternative of a range: two ends with a hyphen between them, which as a whole may also be a
      version, or comparators that all hold, where None is one that could not be taken apart. */
  datatype Alternative =
    | Span(first: Option<Written>, last: Option<Written>, whole: Option<Written>)
    | Comparators(each: seq<Option<Comparator>>)

  /** `low` is inside, `high` is not, and None is no bound. */
  datatype Interval = Interval(low: Option<Key>, high: Option<Key>)

  predicate Contains(i: Interval, k: Key) {
    (i.low.Some? ==> KeyLe(i.low.value, k)) && (i.high.Some? ==> KeyLt(k, i.high.value))
  }

  function Later(a: Key, b: Key): Key { if KeyLt(a, b) then b else a }
  function Earlier(a: Key, b: Key): Key { if KeyLt(b, a) then b else a }

  // ---- what a range covers -----------------------------------------------------------------

  function OperatorOf(c: Comparator): Operator {
    if c.operator.Some? then c.operator.value else Exactly
  }

  ghost predicate Satisfies(operator: Operator, bound: Key, k: Key) {
    match operator
    case AtMost => KeyLe(k, bound)
    case AtLeast => KeyLe(bound, k)
    case Below => KeyLt(k, bound)
    case Above => KeyLt(bound, k)
    case Exactly => k == bound
  }

  predicate ReadableComparator(c: Option<Comparator>) {
    c.Some? && c.value.version.Some?
  }

  /** A span can be read when both ends can, and either it covers something or the text is a version too. */
  predicate Readable(a: Alternative, fold: bool) {
    match a
    case Span(first, last, whole) =>
      && first.Some? && last.Some?
      && (KeyLe(VersionKey(first.value, fold), VersionKey(last.value, fold)) || whole.Some?)
    case Comparators(each) => forall i :: 0 <= i < |each| ==> ReadableComparator(each[i])
  }

  ghost predicate ComparatorHolds(c: Option<Comparator>, fold: bool, k: Key) {
    ReadableComparator(c) && Satisfies(OperatorOf(c.value), VersionKey(c.value.version.value, fold), k)
  }

  ghost predicate Covers(a: Alternative, fold: bool, k: Key)
    requires Readable(a, fold)
  {
    match a
    case Span(first, last, whole) =>
      || (KeyLe(VersionKey(first.value, fold), k) && KeyLe(k, VersionKey(last.value, fold)))
      || (whole.Some? && k == VersionKey(whole.value, fold))
    case Comparators(each) => forall i :: 0 <= i < |each| ==> ComparatorHolds(each[i], fold, k)
  }

  // ---- intervals ---------------------------------------------------------------------------

  function Raised(low: Option<Key>, bound: Key): Option<Key> {
    Some(if low.None? then bound else Later(low.value, bound))
  }

  function Lowered(high: Option<Key>, bound: Key): Option<Key> {
    Some(if high.None? then bound else Earlier(high.value, bound))
  }

  function Tightened(i: Interval, operator: Operator, bound: Key): Interval
    requires bound.tail.Some?
  {
    match operator
    case AtLeast => i.(low := Raised(i.low, bound))
    case Above => i.(low := Raised(i.low, After(bound)))
    case Below => i.(high := Lowered(i.high, bound))
    case AtMost => i.(high := Lowered(i.high, After(bound)))
    case Exactly => Interval(Raised(i.low, bound), Lowered(i.high, After(bound)))
  }

  function Bounds(each: seq<Option<Comparator>>, fold: bool): Option<Interval> {
    if each == [] then Some(Interval(None, None))
    else
      var before := Bounds(each[..|each| - 1], fold);
      var c := each[|each| - 1];
      if before.None? || !ReadableComparator(c) then None
      else Some(Tightened(before.value, OperatorOf(c.value), VersionKey(c.value.version.value, fold)))
  }

  function Point(k: Key): Interval
    requires k.tail.Some?
  {
    Interval(Some(k), Some(After(k)))
  }

  function IntervalsOf(a: Alternative, fold: bool): Option<seq<Interval>> {
    match a
    case Span(first, last, whole) =>
      if first.None? || last.None? then None
      else
        var from, to := VersionKey(first.value, fold), VersionKey(last.value, fold);
        if !KeyLe(from, to) && whole.None? then None
        else Some((if KeyLe(from, to) then [Interval(Some(from), Some(After(to)))] else [])
                  + (if whole.Some? then [Point(VersionKey(whole.value, fold))] else []))
    case Comparators(each) =>
      var bounds := Bounds(each, fold);
      if bounds.None? then None else Some([bounds.value])
  }

  function Intervals(range: seq<Alternative>, fold: bool): Option<seq<Interval>> {
    if range == [] then Some([])
    else
      var before, last := Intervals(range[..|range| - 1], fold), IntervalsOf(range[|range| - 1], fold);
      if before.None? || last.None? then None else Some(before.value + last.value)
  }

  lemma {:induction false} TighteningAdds(i: Interval, operator: Operator, bound: Key, k: Key)
    requires IsVersion(bound) && IsVersion(k)
    ensures Contains(Tightened(i, operator, bound), k) <==> Contains(i, k) && Satisfies(operator, bound, k)
  {
    AfterIsNext(bound, k);
    KeysTotal(bound, k);
    if operator.AtLeast? || operator.Exactly? { RaisingAdds(i.low, bound, k); }
    if operator.Above? { RaisingAdds(i.low, After(bound), k); }
    if operator.Below? { LoweringAdds(i.high, bound, k); }
    if operator.AtMost? || operator.Exactly? { LoweringAdds(i.high, After(bound), k); }
  }

  lemma {:induction false} RaisingAdds(low: Option<Key>, bound: Key, k: Key)
    ensures KeyLe(Raised(low, bound).value, k) <==> (low.Some? ==> KeyLe(low.value, k)) && KeyLe(bound, k)
  {
    if low.Some? {
      LaterIsBoth(low.value, bound, k);
    }
  }

  lemma {:induction false} LoweringAdds(high: Option<Key>, bound: Key, k: Key)
    ensures KeyLt(k, Lowered(high, bound).value) <==> (high.Some? ==> KeyLt(k, high.value)) && KeyLt(k, bound)
  {
    if high.Some? {
      EarlierIsBoth(high.value, bound, k);
    }
  }

  lemma {:induction false} LaterIsBoth(a: Key, b: Key, k: Key)
    ensures KeyLe(Later(a, b), k) <==> KeyLe(a, k) && KeyLe(b, k)
  {
    KeysTotal(a, b);
    if KeyLe(a, b) && KeyLe(b, k) { KeysTransitive(a, b, k); }
    if KeyLe(b, a) && KeyLe(a, k) { KeysTransitive(b, a, k); }
  }

  lemma {:induction false} EarlierIsBoth(a: Key, b: Key, k: Key)
    ensures KeyLt(k, Earlier(a, b)) <==> KeyLt(k, a) && KeyLt(k, b)
  {
    KeysTotal(a, b);
    if KeyLe(a, b) && KeyLe(b, k) { KeysTransitive(a, b, k); }
    if KeyLe(b, a) && KeyLe(a, k) { KeysTransitive(b, a, k); }
  }

  /** The interval of a list of comparators holds exactly the versions that satisfy every one of them. */
  lemma {:induction false} BoundsAreTheComparators(each: seq<Option<Comparator>>, fold: bool, k: Key)
    requires IsVersion(k)
    ensures Bounds(each, fold).Some? <==> Readable(Comparators(each), fold)
    ensures Bounds(each, fold).Some? ==> (Contains(Bounds(each, fold).value, k) <==> Covers(Comparators(each), fold, k))
    decreases |each|
  {
    if each != [] {
      var n := |each| - 1;
      var before, c := each[..n], each[n];
      BoundsAreTheComparators(before, fold, k);
      assert each == before + [c];
      OneMoreComparator(before, c, fold, k);
    }
  }

  lemma {:induction false} OneMoreComparator(before: seq<Option<Comparator>>, c: Option<Comparator>, fold: bool, k: Key)
    requires IsVersion(k) && (Bounds(before, fold).Some? <==> Readable(Comparators(before), fold))
    requires Bounds(before, fold).Some? ==> (Contains(Bounds(before, fold).value, k) <==> Covers(Comparators(before), fold, k))
    ensures var each := before + [c];
            && (Bounds(each, fold).Some? <==> Readable(Comparators(each), fold))
            && (Bounds(each, fold).Some? ==> (Contains(Bounds(each, fold).value, k) <==> Covers(Comparators(each), fold, k)))
  {
    BoundsOneMore(before, c, fold);
    LastComparator(before, c, fold, k);
    if Bounds(before, fold).Some? && ReadableComparator(c) {
      LastTightens(Bounds(before, fold).value, c, fold, k);
    }
  }

  lemma {:induction false} BoundsOneMore(before: seq<Option<Comparator>>, c: Option<Comparator>, fold: bool)
    ensures Bounds(before + [c], fold) ==
            if Bounds(before, fold).None? || !ReadableComparator(c) then None
            else Some(Tightened(Bounds(before, fold).value, OperatorOf(c.value), VersionKey(c.value.version.value, fold)))
  {
    assert (before + [c])[..|before|] == before;
  }

  lemma {:induction false} LastTightens(i: Interval, c: Option<Comparator>, fold: bool, k: Key)
    requires ReadableComparator(c) && IsVersion(k)
    ensures Contains(Tightened(i, OperatorOf(c.value), VersionKey(c.value.version.value, fold)), k) <==>
            Contains(i, k) && ComparatorHolds(c, fold, k)
  {
    TighteningAdds(i, OperatorOf(c.value), VersionKey(c.value.version.value, fold), k);
  }

  lemma {:induction false} LastComparator(before: seq<Option<Comparator>>, c: Option<Comparator>, fold: bool, k: Key)
    ensures Readable(Comparators(before + [c]), fold) <==> Readable(Comparators(before), fold) && ReadableComparator(c)
    ensures Readable(Comparators(before + [c]), fold) ==>
              (Covers(Comparators(before + [c]), fold, k) <==>
               Covers(Comparators(before), fold, k) && ComparatorHolds(c, fold, k))
  {
    var each := before + [c];
    assert forall i :: 0 <= i < |before| ==> each[i] == before[i];
    assert each[|before|] == c;
  }

  ghost predicate InSome(intervals: seq<Interval>, k: Key) {
    exists i :: 0 <= i < |intervals| && Contains(intervals[i], k)
  }

  lemma {:induction false} InSomeOfBoth(x: seq<Interval>, y: seq<Interval>, k: Key)
    ensures InSome(x + y, k) <==> InSome(x, k) || InSome(y, k)
  {
    if InSome(x, k) {
      var i :| 0 <= i < |x| && Contains(x[i], k);
      assert (x + y)[i] == x[i];
    }
    if InSome(y, k) {
      var i :| 0 <= i < |y| && Contains(y[i], k);
      assert (x + y)[|x| + i] == y[i];
    }
  }

  lemma {:induction false} InSomeOfOne(i: Interval, k: Key)
    ensures InSome([i], k) <==> Contains(i, k)
  {
    assert [i][0] == i;
  }

  lemma {:induction false} PointIsOne(p: Key, k: Key)
    requires IsVersion(p) && IsVersion(k)
    ensures Contains(Point(p), k) <==> k == p
  {
    AfterIsNext(p, k);
    KeysTotal(p, k);
  }

  lemma {:induction false} AlternativeIsItsIntervals(a: Alternative, fold: bool, k: Key)
    requires IsVersion(k)
    ensures IntervalsOf(a, fold).Some? <==> Readable(a, fold)
    ensures IntervalsOf(a, fold).Some? ==> (InSome(IntervalsOf(a, fold).value, k) <==> Covers(a, fold, k))
  {
    match a
    case Comparators(each) =>
      BoundsAreTheComparators(each, fold, k);
      if Bounds(each, fold).Some? { InSomeOfOne(Bounds(each, fold).value, k); }
    case Span(_, _, _) => SpanIsItsIntervals(a, fold, k);
  }

  lemma {:induction false} SpanIsItsIntervals(a: Alternative, fold: bool, k: Key)
    requires IsVersion(k) && a.Span?
    ensures IntervalsOf(a, fold).Some? <==> Readable(a, fold)
    ensures IntervalsOf(a, fold).Some? ==> (InSome(IntervalsOf(a, fold).value, k) <==> Covers(a, fold, k))
  {
    if Readable(a, fold) {
      var from, to := VersionKey(a.first.value, fold), VersionKey(a.last.value, fold);
      var span := Interval(Some(from), Some(After(to)));
      var x := if KeyLe(from, to) then [span] else [];
      var y := if a.whole.Some? then [Point(VersionKey(a.whole.value, fold))] else [];
      assert IntervalsOf(a, fold) == Some(x + y);
      InSomeOfBoth(x, y, k);
      InSomeOfOne(span, k);
      AfterIsNext(to, k);
      if KeyLe(from, k) && KeyLe(k, to) { KeysTransitive(from, k, to); }
      if a.whole.Some? {
        InSomeOfOne(Point(VersionKey(a.whole.value, fold)), k);
        PointIsOne(VersionKey(a.whole.value, fold), k);
      }
    }
  }

  ghost predicate RangeReadable(range: seq<Alternative>, fold: bool) {
    forall i :: 0 <= i < |range| ==> Readable(range[i], fold)
  }

  ghost predicate RangeCovers(range: seq<Alternative>, fold: bool, k: Key) {
    exists i :: 0 <= i < |range| && Readable(range[i], fold) && Covers(range[i], fold, k)
  }

  /** A range's intervals hold exactly the versions one of its alternatives covers, and there are none
      exactly when part of the range cannot be read. */
  lemma {:induction false} RangeIsItsIntervals(range: seq<Alternative>, fold: bool, k: Key)
    requires IsVersion(k)
    ensures Intervals(range, fold).Some? <==> RangeReadable(range, fold)
    ensures Intervals(range, fold).Some? ==> (InSome(Intervals(range, fold).value, k) <==> RangeCovers(range, fold, k))
    decreases |range|
  {
    if range != [] {
      var n := |range| - 1;
      RangeIsItsIntervals(range[..n], fold, k);
      AlternativeIsItsIntervals(range[n], fold, k);
      LastAlternative(range[..n], range[n], fold, k);
      assert range == range[..n] + [range[n]];
      if Intervals(range, fold).Some? {
        InSomeOfBoth(Intervals(range[..n], fold).value, IntervalsOf(range[n], fold).value, k);
      }
    }
  }

  lemma {:induction false} LastAlternative(before: seq<Alternative>, a: Alternative, fold: bool, k: Key)
    ensures RangeReadable(before + [a], fold) <==> RangeReadable(before, fold) && Readable(a, fold)
    ensures RangeCovers(before + [a], fold, k) <==> RangeCovers(before, fold, k) || (Readable(a, fold) && Covers(a, fold, k))
  {
    var range := before + [a];
    assert forall i :: 0 <= i < |before| ==> range[i] == before[i];
    assert range[|before|] == a;
  }

  method BoundsOf(each: seq<Option<Comparator>>, fold: bool) returns (bounds: Option<Interval>)
    ensures bounds == Bounds(each, fold)
  {
    var low, high: Option<Key> := None, None;
    for i := 0 to |each|
      invariant Bounds(each[..i], fold) == Some(Interval(low, high))
    {
      assert each[..i + 1][..i] == each[..i];
      if !ReadableComparator(each[i]) {
        UnreadableSpoils(each, i, fold);
        return None;
      }
      var operator, version := OperatorOf(each[i].value), VersionKey(each[i].value.version.value, fold);
      if operator == AtLeast || operator == Exactly {
        low := Some(if low.None? then version else Later(low.value, version));
      }
      if operator == Above {
        low := Some(if low.None? then After(version) else Later(low.value, After(version)));
      }
      if operator == Below {
        high := Some(if high.None? then version else Earlier(high.value, version));
      }
      if operator == AtMost || operator == Exactly {
        high := Some(if high.None? then After(version) else Earlier(high.value, After(version)));
      }
    }
    assert each[..|each|] == each;
    return Some(Interval(low, high));
  }

  lemma {:induction false} UnreadableSpoils(each: seq<Option<Comparator>>, i: nat, fold: bool)
    requires i < |each| && !ReadableComparator(each[i])
    ensures Bounds(each, fold).None?
    decreases |each|
  {
    if i < |each| - 1 {
      UnreadableSpoils(each[..|each| - 1], i, fold);
    }
  }

  lemma {:induction false} UnreadableSpoilsRange(range: seq<Alternative>, i: nat, fold: bool)
    requires i < |range| && IntervalsOf(range[i], fold).None?
    ensures Intervals(range, fold).None?
    decreases |range|
  {
    if i < |range| - 1 {
      UnreadableSpoilsRange(range[..|range| - 1], i, fold);
    }
  }

  method RangeIntervals(range: seq<Alternative>, fold: bool) returns (intervals: Option<seq<Interval>>)
    ensures intervals == Intervals(range, fold)
  {
    var found: seq<Interval> := [];
    for i := 0 to |range|
      invariant Intervals(range[..i], fold) == Some(found)
    {
      assert range[..i + 1][..i] == range[..i];
      var more := AlternativeIntervals(range[i], fold);
      if more.None? {
        UnreadableSpoilsRange(range, i, fold);
        return None;
      }
      found := found + more.value;
    }
    assert range[..|range|] == range;
    return Some(found);
  }

  method AlternativeIntervals(a: Alternative, fold: bool) returns (found: Option<seq<Interval>>)
    ensures found == IntervalsOf(a, fold)
  {
    match a
    case Comparators(each) =>
      var bounds := BoundsOf(each, fold);
      return if bounds.None? then None else Some([bounds.value]);
    case Span(first, last, whole) =>
      if first.None? || last.None? {
        return None;
      }
      var from, to := VersionKey(first.value, fold), VersionKey(last.value, fold);
      var intervals: seq<Interval> := [];
      if KeyLe(from, to) {
        intervals := intervals + [Interval(Some(from), Some(After(to)))];
      } else if whole.None? {
        return None;
      }
      if whole.Some? {
        intervals := intervals + [Point(VersionKey(whole.value, fold))];
      }
      assert intervals == (if KeyLe(from, to) then [Interval(Some(from), Some(After(to)))] else [])
                          + (if whole.Some? then [Point(VersionKey(whole.value, fold))] else []);
      return Some(intervals);
  }

  // ---- reaching ----------------------------------------------------------------------------

  /** Whether nothing keeps two intervals apart. */
  predicate Overlap(a: Interval, b: Interval) {
    var lows := (if a.low.Some? then [a.low.value] else []) + (if b.low.Some? then [b.low.value] else []);
    var highs := (if a.high.Some? then [a.high.value] else []) + (if b.high.Some? then [b.high.value] else []);
    lows == [] || highs == [] ||
    KeyLt(if |lows| == 1 then lows[0] else Later(lows[0], lows[1]),
          if |highs| == 1 then highs[0] else Earlier(highs[0], highs[1]))
  }

  /** Intervals that share a key overlap, and of two that overlap with a bound below, the later bound is
      in both. */
  lemma {:induction false} OverlapIsSharing(a: Interval, b: Interval, k: Key)
    ensures Contains(a, k) && Contains(b, k) ==> Overlap(a, b)
    ensures a.low.Some? && Overlap(a, b) ==>
              var first := if b.low.Some? then Later(a.low.value, b.low.value) else a.low.value;
              Contains(a, first) && Contains(b, first)
  {
    var low := if a.low.None? then b.low else if b.low.None? then a.low else Some(Later(a.low.value, b.low.value));
    var high := if a.high.None? then b.high else if b.high.None? then a.high else Some(Earlier(a.high.value, b.high.value));
    assert Overlap(a, b) <==> low.None? || high.None? || KeyLt(low.value, high.value);
    if Contains(a, k) && Contains(b, k) && low.Some? && high.Some? {
      BetweenBounds(a, b, k, low.value, high.value);
    }
    if a.low.Some? && Overlap(a, b) {
      LowIsInside(a, b, low.value);
    }
  }

  lemma {:induction false} BetweenBounds(a: Interval, b: Interval, k: Key, low: Key, high: Key)
    requires Contains(a, k) && Contains(b, k)
    requires a.low == Some(low) || b.low == Some(low)
    requires a.high == Some(high) || b.high == Some(high)
    ensures KeyLt(low, high)
  {
    assert KeyLe(low, k) && KeyLt(k, high);
    if KeyLe(high, low) {
      KeysTransitive(high, low, k);
    }
  }

  lemma {:induction false} LowIsInside(a: Interval, b: Interval, low: Key)
    requires a.low.Some? && low == (if b.low.None? then a.low.value else Later(a.low.value, b.low.value))
    requires a.high.Some? ==> KeyLt(low, if b.high.None? then a.high.value else Earlier(a.high.value, b.high.value))
    requires b.high.Some? ==> KeyLt(low, if a.high.None? then b.high.value else Earlier(a.high.value, b.high.value))
    ensures Contains(a, low) && Contains(b, low)
  {
    KeysTotal(low, low);
    if b.low.Some? { LaterIsBoth(a.low.value, b.low.value, low); }
    if a.high.Some? && b.high.Some? { EarlierIsBoth(a.high.value, b.high.value, low); }
  }

  ghost predicate AnyOverlap(intervals: seq<Interval>, accepted: seq<Interval>) {
    exists i, j :: 0 <= i < |intervals| && 0 <= j < |accepted| && Overlap(intervals[i], accepted[j])
  }

  ghost predicate ReachesAs(range: seq<Alternative>, accepted: seq<Interval>, fold: bool) {
    Intervals(range, fold).None? || AnyOverlap(Intervals(range, fold).value, accepted)
  }

  method SomeOverlap(intervals: seq<Interval>, accepted: seq<Interval>) returns (found: bool)
    ensures found == AnyOverlap(intervals, accepted)
  {
    for i := 0 to |intervals|
      invariant forall x, y :: 0 <= x < i && 0 <= y < |accepted| ==> !Overlap(intervals[x], accepted[y])
    {
      for j := 0 to |accepted|
        invariant forall y :: 0 <= y < j ==> !Overlap(intervals[i], accepted[y])
      {
        if Overlap(intervals[i], accepted[j]) {
          return true;
        }
      }
    }
    return false;
  }

  method Reaches(range: seq<Alternative>, accepted: seq<Interval>) returns (reached: bool)
    ensures reached <==> ReachesAs(range, accepted, false) || ReachesAs(range, accepted, true)
  {
    for n := 0 to 2
      invariant n > 0 ==> !ReachesAs(range, accepted, false)
      invariant n > 1 ==> !ReachesAs(range, accepted, true)
    {
      var intervals := RangeIntervals(range, n == 1);
      if intervals.None? {
        return true;
      }
      var found := SomeOverlap(intervals.value, accepted);
      if found {
        return true;
      }
    }
    return false;
  }

  /** No version is missed: one that lies in the range and in an accepted interval under either reading
      makes the range reach, and so does a range that cannot be read in full. */
  lemma {:induction false} NoVersionIsMissed(range: seq<Alternative>, accepted: seq<Interval>, w: Written, fold: bool)
    ensures !RangeReadable(range, fold) ==> ReachesAs(range, accepted, fold)
    ensures RangeCovers(range, fold, VersionKey(w, fold)) && InSome(accepted, VersionKey(w, fold)) ==>
              ReachesAs(range, accepted, fold)
  {
    var k := VersionKey(w, fold);
    RangeIsItsIntervals(range, fold, k);
    if RangeReadable(range, fold) && RangeCovers(range, fold, k) && InSome(accepted, k) {
      var intervals := Intervals(range, fold).value;
      var i :| 0 <= i < |intervals| && Contains(intervals[i], k);
      var j :| 0 <= j < |accepted| && Contains(accepted[j], k);
      OverlapIsSharing(intervals[i], accepted[j], k);
    }
  }
}
