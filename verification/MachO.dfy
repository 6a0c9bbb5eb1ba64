/** Comparing two Mach-O files outside their code signature: the load commands are walked, the fields that
    signing sets are masked in both files, and everything else before the signature must be equal. */
module MachO {
  import opened Common

  type byte = x: int | 0 <= x < 256

  // The widths of the numbers in a header.
  const WORD: nat := 4
  const QUAD: nat := 8

  const HEADER: nat := 32
  const LC_SEGMENT_64: nat := 0x19
  const LC_CODE_SIGNATURE: nat := 0x1D
  const SEGMENT_ROUNDING: nat := 0x4000

  datatype Command = Command(offset: nat, command: nat, size: nat)

  datatype Reason =
    | NotMachO | OtherLayout | CommandBeyondEnd | CommandDoesNotFit
    | SignatureCount(n: nat) | SignatureSize | SignatureNotAtEnd
    | SegmentNotAtEnd | SegmentNotRounded | SignatureBeforeSegment

  /** What a reading step ends in; `Crashed` is an error no caller catches, such as a read past the end. */
  datatype Outcome<+T> = Ok(value: T) | Refused(reason: Reason) | Crashed

  // ---- reading -----------------------------------------------------------------------------

  /** The number some bytes stand for, least significant first. */
  function Value(bytes: seq<byte>): nat {
    if bytes == [] then 0 else bytes[0] + 256 * Value(bytes[1..])
  }

  /** The number in the `n` bytes at an offset. */
  function Little(data: seq<byte>, at: nat, n: nat): nat
    requires at + n <= |data|
  {
    Value(data[at..at + n])
  }

  /** A number determines the bytes it is read from. */
  lemma {:induction false} ValueDetermines(a: seq<byte>, b: seq<byte>)
    requires |a| == |b|
    ensures Value(a) == Value(b) <==> a == b
    decreases |a|
  {
    if a != [] {
      ValueDetermines(a[1..], b[1..]);
      assert a == [a[0]] + a[1..] && b == [b[0]] + b[1..];
      assert a[0] == Value(a) % 256 && b[0] == Value(b) % 256;
    }
  }

  predicate IsMagic64(head: seq<byte>) { head == [0xcf, 0xfa, 0xed, 0xfe] }

  predicate IsOtherMagic(head: seq<byte>) {
    || head == [0xce, 0xfa, 0xed, 0xfe] || head == [0xfe, 0xed, 0xfa, 0xcf] || head == [0xfe, 0xed, 0xfa, 0xce]
    || head == [0xca, 0xfe, 0xba, 0xbe] || head == [0xca, 0xfe, 0xba, 0xbf]
    || head == [0xbe, 0xba, 0xfe, 0xca] || head == [0xbf, 0xba, 0xfe, 0xca]
  }

  function Head(data: seq<byte>): seq<byte> { data[..Min(4, |data|)] }

  function Prepend(found: seq<Command>, rest: Outcome<seq<Command>>): Outcome<seq<Command>> {
    if rest.Ok? then Ok(found + rest.value) else rest
  }

  /** The commands from an offset on, `left` of them, none of them ending past `limit`. */
  function Walk(data: seq<byte>, offset: nat, left: nat, limit: nat): Outcome<seq<Command>>
    decreases left
  {
    if left == 0 then Ok([])
    else if offset + 8 > |data| then Refused(CommandBeyondEnd)
    else
      var command, size := Little(data, offset, WORD), Little(data, offset + 4, WORD);
      if size < 8 || offset + size > limit then Refused(CommandDoesNotFit)
      else Prepend([Command(offset, command, size)], Walk(data, offset + size, left - 1, limit))
  }

  function Commands(data: seq<byte>): Outcome<seq<Command>> {
    if IsOtherMagic(Head(data)) then Refused(OtherLayout)
    else if !IsMagic64(Head(data)) then Refused(NotMachO)
    else if |data| < 24 then Crashed
    else Walk(data, HEADER, Little(data, 16, WORD), HEADER + Little(data, 20, WORD))
  }

  method ReadCommands(data: seq<byte>) returns (out: Outcome<seq<Command>>)
    ensures out == Commands(data)
  {
    if IsOtherMagic(Head(data)) { return Refused(OtherLayout); }
    if !IsMagic64(Head(data)) { return Refused(NotMachO); }
    if |data| < 24 { return Crashed; }
    out := WalkCommands(data, Little(data, 16, WORD), HEADER + Little(data, 20, WORD));
  }

  method WalkCommands(data: seq<byte>, ncmds: nat, limit: nat) returns (out: Outcome<seq<Command>>)
    ensures out == Walk(data, HEADER, ncmds, limit)
  {
    var offset: nat, found: seq<Command> := HEADER, [];
    PrependNothing(Walk(data, HEADER, ncmds, limit));
    for i: nat := 0 to ncmds
      invariant Walk(data, HEADER, ncmds, limit) == Prepend(found, Walk(data, offset, ncmds - i, limit))
    {
      if offset + 8 > |data| { return Refused(CommandBeyondEnd); }
      var command, size := Little(data, offset, WORD), Little(data, offset + 4, WORD);
      if size < 8 || offset + size > limit { return Refused(CommandDoesNotFit); }
      PrependTwice(found, Command(offset, command, size), Walk(data, offset + size, ncmds - i - 1, limit));
      found := found + [Command(offset, command, size)];
      offset := offset + size;
    }
    assert found + [] == found;
    return Ok(found);
  }

  lemma {:induction false} PrependNothing(rest: Outcome<seq<Command>>)
    ensures Prepend([], rest) == rest
  {
    if rest.Ok? {
      assert [] + rest.value == rest.value;
    }
  }

  lemma {:induction false} PrependTwice(found: seq<Command>, c: Command, rest: Outcome<seq<Command>>)
    ensures Prepend(found, Prepend([c], rest)) == Prepend(found + [c], rest)
  {
    if rest.Ok? {
      assert found + ([c] + rest.value) == found + [c] + rest.value;
    }
  }

  /** The commands found follow one another without a gap, and each is where the file says it is. */
  lemma {:induction false} CommandsTile(data: seq<byte>, offset: nat, left: nat, limit: nat)
    requires Walk(data, offset, left, limit).Ok?
    ensures var found := Walk(data, offset, left, limit).value;
            && |found| == left
            && (left > 0 ==> found[0].offset == offset)
            && (forall i :: 0 <= i < left - 1 ==> found[i + 1].offset == found[i].offset + found[i].size)
            && (forall i :: 0 <= i < left ==> offset <= found[i].offset && IsRead(data, found[i], limit))
  {
    CommandsAreRead(data, offset, left, limit);
    CommandsFollow(data, offset, left, limit);
  }

  /** A command is in the file where it was found, and lies inside the commands' own extent. */
  ghost predicate IsRead(data: seq<byte>, c: Command, limit: nat) {
    && c.offset + 8 <= |data| && 8 <= c.size && c.offset + c.size <= limit
    && Little(data, c.offset, WORD) == c.command && Little(data, c.offset + 4, WORD) == c.size
  }

  lemma {:induction false} CommandsAreRead(data: seq<byte>, offset: nat, left: nat, limit: nat)
    requires Walk(data, offset, left, limit).Ok?
    ensures var found := Walk(data, offset, left, limit).value;
            && |found| == left
            && forall i :: 0 <= i < left ==> offset <= found[i].offset && IsRead(data, found[i], limit)
    decreases left
  {
    if left > 0 {
      var size := Little(data, offset + 4, WORD);
      CommandsAreRead(data, offset + size, left - 1, limit);
      var rest := Walk(data, offset + size, left - 1, limit).value;
      var found := Walk(data, offset, left, limit).value;
      assert forall i :: 1 <= i < left ==> found[i] == rest[i - 1];
    }
  }

  lemma {:induction false} CommandsFollow(data: seq<byte>, offset: nat, left: nat, limit: nat)
    requires Walk(data, offset, left, limit).Ok?
    ensures var found := Walk(data, offset, left, limit).value;
            && |found| == left
            && (left > 0 ==> found[0].offset == offset)
            && forall i :: 0 <= i < left - 1 ==> found[i + 1].offset == found[i].offset + found[i].size
    decreases left
  {
    if left > 0 {
      var size := Little(data, offset + 4, WORD);
      CommandsFollow(data, offset + size, left - 1, limit);
      var rest := Walk(data, offset + size, left - 1, limit).value;
      var found := Walk(data, offset, left, limit).value;
      assert found == [found[0]] + rest && found[0].size == size;
    }
  }

  // ---- the fields signing sets -------------------------------------------------------------

  function OfKind(found: seq<Command>, kind: nat): seq<Command> {
    if found == [] then []
    else (if found[0].command == kind then [found[0]] else []) + OfKind(found[1..], kind)
  }

  /** The first segment whose contents start furthest into the file, or None where one cannot be read. */
  function LastSegment(data: seq<byte>, segments: seq<Command>): (last: Option<nat>)
    ensures last.Some? ==> last.value + 48 <= |data|
  {
    if segments == [] || segments[|segments| - 1].offset + 48 > |data| then None
    else if |segments| == 1 then Some(segments[0].offset)
    else
      var before, here := LastSegment(data, segments[..|segments| - 1]), segments[|segments| - 1].offset;
      if before.Some? && Little(data, before.value + 40, QUAD) < Little(data, here + 40, QUAD) then Some(here) else before
  }

  lemma {:induction false} LastSegmentIsFurthest(data: seq<byte>, segments: seq<Command>, i: nat)
    requires i < |segments| && LastSegment(data, segments).Some?
    ensures segments[i].offset + 48 <= |data|
    ensures Little(data, segments[i].offset + 40, QUAD) <= Little(data, LastSegment(data, segments).value + 40, QUAD)
    decreases |segments|
  {
    if |segments| > 1 {
      LastSegmentIsFurthest(data, segments[..|segments| - 1], if i < |segments| - 1 then i else 0);
    }
  }

  /** Where the signature starts, and the commands of the signature and of the segment that holds it. */
  datatype Layout = Layout(start: nat, signature: nat, segment: nat)

  function RoundedUp(n: nat): nat {
    (n + SEGMENT_ROUNDING - 1) / SEGMENT_ROUNDING * SEGMENT_ROUNDING
  }

  function SignatureFields(data: seq<byte>): Outcome<Layout> {
    var commands := Commands(data);
    if commands.Refused? then Refused(commands.reason)
    else if commands.Crashed? then Crashed
    else
      var signatures := OfKind(commands.value, LC_CODE_SIGNATURE);
      if |signatures| != 1 then Refused(SignatureCount(|signatures|))
      else if signatures[0].size != 16 then Refused(SignatureSize)
      else LayoutWith(data, signatures[0].offset, OfKind(commands.value, LC_SEGMENT_64))
  }

  function LayoutWith(data: seq<byte>, signature: nat, segments: seq<Command>): Outcome<Layout> {
    if signature + 16 > |data| then Crashed
    else
      var start, size := Little(data, signature + 8, WORD), Little(data, signature + 12, WORD);
      if start + size != |data| then Refused(SignatureNotAtEnd)
      else
        var last := LastSegment(data, segments);
        if last.None? || last.value + 56 > |data| then Crashed
        else
          var refusal := SegmentRefusal(data, last.value, start);
          if refusal.Some? then Refused(refusal.value) else Ok(Layout(start, signature, last.value))
  }

  function SegmentRefusal(data: seq<byte>, segment: nat, start: nat): Option<Reason>
    requires segment + 56 <= |data|
  {
    var vmsize, fileoff, filesize := Little(data, segment + 32, QUAD), Little(data, segment + 40, QUAD), Little(data, segment + 48, QUAD);
    if fileoff + filesize != |data| then Some(SegmentNotAtEnd)
    else if vmsize != RoundedUp(filesize) then Some(SegmentNotRounded)
    else if fileoff > start then Some(SignatureBeforeSegment)
    else None
  }

  /** What a layout says of the file it was read from. */
  ghost predicate Says(data: seq<byte>, l: Layout) {
    && l.signature + 16 <= |data| && l.segment + 56 <= |data| && l.start <= |data|
    && Little(data, l.signature + 8, WORD) == l.start
    && l.start + Little(data, l.signature + 12, WORD) == |data|
    && Little(data, l.segment + 40, QUAD) + Little(data, l.segment + 48, QUAD) == |data|
    && Little(data, l.segment + 32, QUAD) == RoundedUp(Little(data, l.segment + 48, QUAD))
    && Little(data, l.segment + 40, QUAD) <= l.start
  }

  lemma {:induction false} LayoutSays(data: seq<byte>)
    requires SignatureFields(data).Ok?
    ensures Says(data, SignatureFields(data).value)
  {
  }

  // ---- the comparison ----------------------------------------------------------------------

  function Ranges(l: Layout): seq<(nat, nat)> {
    [(l.signature + 12, l.signature + 16), (l.segment + 32, l.segment + 40), (l.segment + 48, l.segment + 56)]
  }

  predicate Within(ranges: seq<(nat, nat)>, i: nat) {
    exists r :: 0 <= r < |ranges| && ranges[r].0 <= i < ranges[r].1
  }

  function Zeros(n: nat): seq<byte> { seq(n, _ => 0) }

  /** Python's slice assignment: a range past the end of the buffer makes it longer. */
  function Masked(b: seq<byte>, range: (nat, nat)): seq<byte>
    requires range.0 <= range.1
  {
    b[..Min(range.0, |b|)] + Zeros(range.1 - range.0) + b[Min(range.1, |b|)..]
  }

  /** A buffer that began as the first `n` bytes of a file, with some ranges masked; what was added is nought. */
  ghost predicate IsMasked(b: seq<byte>, data: seq<byte>, n: nat, ranges: seq<(nat, nat)>)
    requires n <= |data|
  {
    && n <= |b|
    && (forall i :: 0 <= i < n ==> b[i] == if Within(ranges, i) then 0 else data[i])
    && (forall i :: n <= i < |b| ==> b[i] == 0)
  }

  lemma {:induction false} WithinOneMore(ranges: seq<(nat, nat)>, range: (nat, nat), i: nat)
    ensures Within(ranges + [range], i) <==> Within(ranges, i) || range.0 <= i < range.1
  {
    var more := ranges + [range];
    if Within(ranges, i) {
      var r :| 0 <= r < |ranges| && ranges[r].0 <= i < ranges[r].1;
      assert more[r] == ranges[r];
    }
    assert more[|ranges|] == range;
  }

  lemma {:induction false} MaskingOneMore(b: seq<byte>, data: seq<byte>, n: nat, ranges: seq<(nat, nat)>, range: (nat, nat))
    requires n <= |data| && range.0 <= range.1 && IsMasked(b, data, n, ranges)
    ensures IsMasked(Masked(b, range), data, n, ranges + [range])
  {
    var m := Masked(b, range);
    var low, high := Min(range.0, |b|), Min(range.1, |b|);
    forall i | 0 <= i < |m|
      ensures m[i] == if i < n then (if Within(ranges + [range], i) then 0 else data[i]) else 0
    {
      WithinOneMore(ranges, range, i);
      if i < low {
        assert m[i] == b[i];
      } else if i < low + (range.1 - range.0) {
        assert m[i] == 0;
      } else {
        assert m[i] == b[i - (low + (range.1 - range.0)) + high];
      }
    }
  }

  datatype Verdict =
    | Equal | BuiltRefused(reason: Reason) | StagedRefused(reason: Reason)
    | StartsElsewhere | LaidOutDifferently | DiffersAt(offset: nat) | Failed

  /** The two files agree up to an offset wherever signing sets nothing. */
  ghost predicate AgreeOutside(a: seq<byte>, b: seq<byte>, ranges: seq<(nat, nat)>, n: nat)
    requires n <= |a| && n <= |b|
  {
    forall i :: 0 <= i < n && !Within(ranges, i) ==> a[i] == b[i]
  }

  ghost predicate SameLayout(built: seq<byte>, staged: seq<byte>) {
    && SignatureFields(built).Ok? && SignatureFields(staged).Ok?
    && SignatureFields(built).value == SignatureFields(staged).value
  }

  /** Both buffers with every range masked, over one pass of the ranges. */
  method MaskBoth(built: seq<byte>, staged: seq<byte>, n: nat, ranges: seq<(nat, nat)>) returns (first: seq<byte>, second: seq<byte>)
    requires n <= |built| && n <= |staged| && forall r :: 0 <= r < |ranges| ==> ranges[r].0 <= ranges[r].1
    ensures |first| == |second| && IsMasked(first, built, n, ranges) && IsMasked(second, staged, n, ranges)
  {
    first, second := built[..n], staged[..n];
    for r := 0 to |ranges|
      invariant |first| == |second| && IsMasked(first, built, n, ranges[..r]) && IsMasked(second, staged, n, ranges[..r])
    {
      MaskingOneMore(first, built, n, ranges[..r], ranges[r]);
      MaskingOneMore(second, staged, n, ranges[..r], ranges[r]);
      assert ranges[..r] + [ranges[r]] == ranges[..r + 1];
      first := Masked(first, ranges[r]);
      second := Masked(second, ranges[r]);
    }
    assert ranges[..|ranges|] == ranges;
  }

  method FirstDifference(a: seq<byte>, b: seq<byte>) returns (at: Option<nat>)
    requires |a| == |b|
    ensures at.None? <==> a == b
    ensures at.Some? ==> at.value < |a| && a[at.value] != b[at.value] && a[..at.value] == b[..at.value]
  {
    for i := 0 to |a|
      invariant a[..i] == b[..i]
    {
      if a[i] != b[i] { return Some(i); }
      assert a[..i + 1] == a[..i] + [a[i]] && b[..i + 1] == b[..i] + [b[i]];
    }
    assert a[..|a|] == a && b[..|b|] == b;
    return None;
  }

  /** Whether two files of one layout agree outside it, or the first place they do not. */
  method CompareMasked(built: seq<byte>, staged: seq<byte>, n: nat, ranges: seq<(nat, nat)>) returns (at: Option<nat>)
    requires n <= |built| && n <= |staged| && forall r :: 0 <= r < |ranges| ==> ranges[r].0 <= ranges[r].1
    ensures at.None? <==> AgreeOutside(built, staged, ranges, n)
    ensures at.Some? ==>
              && at.value < n && !Within(ranges, at.value) && built[at.value] != staged[at.value]
              && AgreeOutside(built, staged, ranges, at.value)
  {
    var first, second := MaskBoth(built, staged, n, ranges);
    at := FirstDifference(first, second);
    if at.Some? {
      assert forall i :: 0 <= i < at.value ==> first[i] == first[..at.value][i] == second[..at.value][i] == second[i];
    }
  }

  /** Compares the file a run built with the one staged for release. */
  method EqualOutsideSignature(built: seq<byte>, staged: seq<byte>) returns (verdict: Verdict)
    ensures verdict.Equal? <==> Accepted(built, staged)
    ensures verdict.DiffersAt? ==>
              && SameLayout(built, staged)
              && var l := SignatureFields(built).value;
              && verdict.offset < l.start <= |built| && l.start <= |staged| && !Within(Ranges(l), verdict.offset)
              && built[verdict.offset] != staged[verdict.offset]
              && AgreeOutside(built, staged, Ranges(l), verdict.offset)
    ensures verdict.BuiltRefused? <==> SignatureFields(built).Refused?
    ensures verdict.BuiltRefused? ==> verdict.reason == SignatureFields(built).reason
    ensures verdict.StagedRefused? <==> SignatureFields(built).Ok? && SignatureFields(staged).Refused?
    ensures verdict.StagedRefused? ==> verdict.reason == SignatureFields(staged).reason
    ensures verdict.Failed? <==>
              SignatureFields(built).Crashed? || (SignatureFields(built).Ok? && SignatureFields(staged).Crashed?)
    ensures verdict.StartsElsewhere? ==> SignatureFields(built).value.start != SignatureFields(staged).value.start
    ensures verdict.LaidOutDifferently? ==> SignatureFields(built).value != SignatureFields(staged).value
  {
    var ours := SignatureFields(built);
    match ours {
      case Refused(reason) => return BuiltRefused(reason);
      case Crashed => return Failed;
      case Ok(_) =>
    }
    var theirs := SignatureFields(staged);
    match theirs {
      case Refused(reason) => return StagedRefused(reason);
      case Crashed => return Failed;
      case Ok(_) =>
    }
    if ours.value.start != theirs.value.start { return StartsElsewhere; }
    if Ranges(ours.value) != Ranges(theirs.value) { return LaidOutDifferently; }
    SameRangesSameLayout(ours.value, theirs.value);
    StartsInside(built);
    StartsInside(staged);
    var at := CompareMasked(built, staged, ours.value.start, Ranges(ours.value));
    return if at.Some? then DiffersAt(at.value) else Equal;
  }

  lemma {:induction false} StartsInside(data: seq<byte>)
    requires SignatureFields(data).Ok?
    ensures SignatureFields(data).value.start <= |data|
  {
    LayoutSays(data);
  }

  lemma {:induction false} SameRangesSameLayout(a: Layout, b: Layout)
    requires a.start == b.start && Ranges(a) == Ranges(b)
    ensures a == b
  {
    assert Ranges(a)[0] == Ranges(b)[0] && Ranges(a)[1] == Ranges(b)[1];
  }

  // ---- what acceptance means ---------------------------------------------------------------

  ghost predicate Accepted(built: seq<byte>, staged: seq<byte>) {
    && SameLayout(built, staged)
    && var l := SignatureFields(built).value;
    && l.start <= |built| && l.start <= |staged| && AgreeOutside(built, staged, Ranges(l), l.start)
  }

  lemma {:induction false} EqualFields(a: seq<byte>, b: seq<byte>, at: nat, n: nat)
    requires at + n <= |a| && at + n <= |b|
    ensures Little(a, at, n) == Little(b, at, n) <==> forall i :: at <= i < at + n ==> a[i] == b[i]
  {
    ValueDetermines(a[at..at + n], b[at..at + n]);
    if a[at..at + n] == b[at..at + n] {
      forall i | at <= i < at + n ensures a[i] == b[i] {
        assert a[at..at + n][i - at] == b[at..at + n][i - at];
      }
    }
  }

  lemma {:induction false} InThree(l: Layout, i: nat)
    ensures Within(Ranges(l), i) <==>
            || l.signature + 12 <= i < l.signature + 16
            || l.segment + 32 <= i < l.segment + 40
            || l.segment + 48 <= i < l.segment + 56
  {
    var r := Ranges(l);
    assert r[0].0 == l.signature + 12 && r[1].0 == l.segment + 32 && r[2].0 == l.segment + 48;
  }

  /** The last segment's place in the file is described before the signature, or nothing of its sizes is
      but a byte that is always nought. */
  predicate SegmentIsFixed(l: Layout) {
    l.segment + 48 <= l.start || l.start <= l.segment + 33
  }

  /** Signing determines only the signature: two staged files of one length, both accepted against one
      built file whose last segment is fixed before its signature, are the same up to the signature. */
  lemma {:induction false} SigningSetsOnlyTheSignature(built: seq<byte>, one: seq<byte>, two: seq<byte>)
    requires Accepted(built, one) && Accepted(built, two) && |one| == |two|
    requires SegmentIsFixed(SignatureFields(built).value)
    ensures SignatureFields(built).value.start <= |one|
    ensures one[..SignatureFields(built).value.start] == two[..SignatureFields(built).value.start]
  {
    var l := SignatureFields(built).value;
    LayoutSays(one);
    LayoutSays(two);
    MaskedFieldsAreForced(one, two, l);
  }

  /** Each masked field follows from the length of the file and the bytes that are compared. */
  lemma {:induction false} MaskedFieldsAreForced(one: seq<byte>, two: seq<byte>, l: Layout)
    requires Says(one, l) && Says(two, l) && |one| == |two| && SegmentIsFixed(l)
    requires AgreeOutside(one, two, Ranges(l), l.start)
    ensures one[..l.start] == two[..l.start]
  {
    EqualFields(one, two, l.signature + 12, WORD);
    if l.segment + 48 <= l.start {
      SegmentFieldsAreForced(one, two, l);
    } else {
      SizeStartsWithNought(one, l);
      SizeStartsWithNought(two, l);
    }
    forall i | 0 <= i < l.start ensures one[i] == two[i] {
      InThree(l, i);
    }
  }

  lemma {:induction false} SegmentFieldsAreForced(one: seq<byte>, two: seq<byte>, l: Layout)
    requires Says(one, l) && Says(two, l) && |one| == |two| && l.segment + 48 <= l.start
    requires AgreeOutside(one, two, Ranges(l), l.start)
    ensures forall i :: l.segment + 32 <= i < l.segment + 56 ==> one[i] == two[i]
  {
    PlaceIsCompared(one, two, l);
    SizesAreForced(one, two, l);
  }

  lemma {:induction false} SizesAreForced(one: seq<byte>, two: seq<byte>, l: Layout)
    requires Says(one, l) && Says(two, l) && |one| == |two|
    requires forall i :: l.segment + 40 <= i < l.segment + 48 ==> one[i] == two[i]
    ensures forall i :: l.segment + 32 <= i < l.segment + 40 || l.segment + 48 <= i < l.segment + 56 ==> one[i] == two[i]
  {
    EqualFields(one, two, l.segment + 40, QUAD);
    EqualFields(one, two, l.segment + 48, QUAD);
    EqualFields(one, two, l.segment + 32, QUAD);
  }

  lemma {:induction false} PlaceIsCompared(one: seq<byte>, two: seq<byte>, l: Layout)
    requires Says(one, l) && Says(two, l) && |one| == |two| && l.segment + 48 <= l.start
    requires AgreeOutside(one, two, Ranges(l), l.start)
    ensures forall i :: l.segment + 40 <= i < l.segment + 48 ==> one[i] == two[i]
  {
    EqualFields(one, two, l.signature + 12, WORD);
    forall i | l.segment + 40 <= i < l.segment + 48 ensures one[i] == two[i] {
      InThree(l, i);
    }
  }

  /** A size rounded up to 16 KiB starts with a byte that is nought. */
  lemma {:induction false} SizeStartsWithNought(data: seq<byte>, l: Layout)
    requires Says(data, l)
    ensures data[l.segment + 32] == 0
  {
    var bytes := data[l.segment + 32..l.segment + 40];
    var size := Little(data, l.segment + 48, QUAD);
    assert Value(bytes) == bytes[0] + 256 * Value(bytes[1..]);
    assert RoundedUp(size) == 256 * (64 * ((size + SEGMENT_ROUNDING - 1) / SEGMENT_ROUNDING));
  }

  lemma {:induction false} KindsAreListed(found: seq<Command>, kind: nat, c: Command)
    ensures c in OfKind(found, kind) <==> c in found && c.command == kind
    decreases |found|
  {
    if found != [] {
      KindsAreListed(found[1..], kind, c);
    }
  }

  ghost predicate FirstFurthest(data: seq<byte>, segments: seq<Command>, j: nat, last: nat) {
    && j < |segments| && segments[j].offset == last && last + 48 <= |data|
    && forall i :: 0 <= i < j ==>
         segments[i].offset + 48 <= |data| && Little(data, segments[i].offset + 40, QUAD) < Little(data, last + 40, QUAD)
  }

  /** The last segment is one of those found, and the first of those that start as far into the file. */
  lemma {:induction false} LastSegmentIsFirst(data: seq<byte>, segments: seq<Command>) returns (j: nat)
    requires LastSegment(data, segments).Some?
    ensures FirstFurthest(data, segments, j, LastSegment(data, segments).value)
    decreases |segments|
  {
    j := 0;
    if |segments| > 1 {
      var n := |segments| - 1;
      var before := LastSegment(data, segments[..n]);
      if before == LastSegment(data, segments) {
        j := LastSegmentIsFirst(data, segments[..n]);
        FirstFurthestStays(data, segments, n, j, before.value);
      } else {
        j := n;
        LastIsFirstFurthest(data, segments);
      }
    }
  }

  lemma {:induction false} FirstFurthestStays(data: seq<byte>, segments: seq<Command>, n: nat, j: nat, last: nat)
    requires n <= |segments| && FirstFurthest(data, segments[..n], j, last)
    ensures FirstFurthest(data, segments, j, last)
  {
    assert forall i :: 0 <= i < n ==> segments[..n][i] == segments[i];
  }

  lemma {:induction false} LastIsFirstFurthest(data: seq<byte>, segments: seq<Command>)
    requires |segments| > 1 && LastSegment(data, segments).Some?
    requires LastSegment(data, segments) != LastSegment(data, segments[..|segments| - 1])
    ensures FirstFurthest(data, segments, |segments| - 1, LastSegment(data, segments).value)
  {
    var n := |segments| - 1;
    LastTakesOver(data, segments);
    forall i | 0 <= i < n
      ensures segments[i].offset + 48 <= |data|
      ensures Little(data, segments[i].offset + 40, QUAD) < Little(data, segments[n].offset + 40, QUAD)
    {
      LastSegmentIsFurthest(data, segments[..n], i);
      assert segments[..n][i] == segments[i];
    }
  }

  lemma {:induction false} LastTakesOver(data: seq<byte>, segments: seq<Command>)
    requires |segments| > 1 && LastSegment(data, segments).Some?
    requires LastSegment(data, segments) != LastSegment(data, segments[..|segments| - 1])
    ensures var n := |segments| - 1;
            var before := LastSegment(data, segments[..n]);
            && LastSegment(data, segments).value == segments[n].offset
            && before.Some? && segments[n].offset + 48 <= |data|
            && Little(data, before.value + 40, QUAD) < Little(data, segments[n].offset + 40, QUAD)
  {
  }

  /** A last segment is described before the signature whenever every load command ends before it and a
      segment's command is large enough to hold the fields read from it. */
  lemma {:induction false} CommandsBeforeSignature(data: seq<byte>)
    requires SignatureFields(data).Ok?
    requires forall c :: c in Commands(data).value ==>
               c.offset + c.size <= SignatureFields(data).value.start && (c.command == LC_SEGMENT_64 ==> 56 <= c.size)
    ensures SignatureFields(data).value.segment + 48 <= SignatureFields(data).value.start
  {
    var found := Commands(data).value;
    var segments := OfKind(found, LC_SEGMENT_64);
    var j := LastSegmentIsFirst(data, segments);
    assert segments[j] in segments;
    KindsAreListed(found, LC_SEGMENT_64, segments[j]);
  }

  // ---- a segment the comparison does not fix -----------------------------------------------

  const SAMPLE_LENGTH: nat := 0x4001
  const SAMPLE_LAYOUT := Layout(72, 40, 32)

  /** Two commands, a segment's of eight bytes and a signature's, which starts at 72. */
  function SampleByte(i: nat): byte {
    match i
    case 0 => 0xcf case 1 => 0xfa case 2 => 0xed case 3 => 0xfe
    case 16 => 2 case 20 => 24
    case 32 => 0x19 case 36 => 8 case 40 => 0x1d case 44 => 16
    case 48 => 72 case 52 => 0xb9 case 53 => 0x3f
    case _ => 0
  }

  ghost predicate HasSampleHead(data: seq<byte>) {
    |data| == SAMPLE_LENGTH && forall i :: 0 <= i < 64 ==> data[i] == SampleByte(i)
  }

  /** A file whose signature starts inside its last segment's description: its place in the file, which
      follows, is not compared, and either of two places fits the file's length. */
  ghost predicate IsSample(data: seq<byte>, size: seq<byte>, place: seq<byte>, filesize: seq<byte>) {
    && HasSampleHead(data)
    && data[64..72] == size && data[72..80] == place && data[80..88] == filesize
  }

  function TwoBytes(low: int, high: int): int { low + 256 * high }

  lemma {:induction false} WordIs(word: seq<byte>)
    requires |word| == 4 && word[2] == 0 && word[3] == 0
    ensures Value(word) == TwoBytes(word[0], word[1])
  {
    NoughtIs(word[2..]);
    assert word[1..][1..] == word[2..];
  }

  lemma {:induction false} QuadIs(quad: seq<byte>)
    requires |quad| == 8 && forall i :: 2 <= i < 8 ==> quad[i] == 0
    ensures Value(quad) == TwoBytes(quad[0], quad[1])
  {
    NoughtIs(quad[2..]);
    assert quad[1..][1..] == quad[2..];
  }

  lemma {:induction false} NoughtIs(bytes: seq<byte>)
    requires forall i :: 0 <= i < |bytes| ==> bytes[i] == 0
    ensures Value(bytes) == 0
    decreases |bytes|
  {
    if bytes != [] { NoughtIs(bytes[1..]); }
  }

  lemma {:induction false} HeadWord(data: seq<byte>, at: nat)
    requires HasSampleHead(data) && at + 4 <= 64 && SampleByte(at + 2) == 0 && SampleByte(at + 3) == 0
    ensures Little(data, at, WORD) == TwoBytes(SampleByte(at), SampleByte(at + 1))
  {
    WordIs(data[at..at + 4]);
  }

  lemma {:induction false} SampleCommands(data: seq<byte>)
    requires HasSampleHead(data)
    ensures Commands(data) == Ok([Command(32, LC_SEGMENT_64, 8), Command(40, LC_CODE_SIGNATURE, 16)])
  {
    HeadWord(data, 16);
    HeadWord(data, 20);
    assert Head(data) == [0xcf, 0xfa, 0xed, 0xfe];
    SampleWalk(data);
  }

  lemma {:induction false} SampleWalk(data: seq<byte>)
    requires HasSampleHead(data)
    ensures Walk(data, 32, 2, 56) == Ok([Command(32, LC_SEGMENT_64, 8), Command(40, LC_CODE_SIGNATURE, 16)])
  {
    HeadWord(data, 32);
    HeadWord(data, 36);
    HeadWord(data, 40);
    HeadWord(data, 44);
    WalkOne(data, 40, 1, 56);
    WalkOne(data, 32, 2, 56);
    var segment, signature := Command(32, LC_SEGMENT_64, 8), Command(40, LC_CODE_SIGNATURE, 16);
    assert Walk(data, 40, 1, 56) == Ok([signature] + []);
    assert [signature] + [] == [signature] && [segment] + [signature] == [segment, signature];
  }

  lemma {:induction false} WalkOne(data: seq<byte>, offset: nat, left: nat, limit: nat)
    requires left > 0 && offset + 8 <= |data|
    requires var size := Little(data, offset + 4, WORD); 8 <= size && offset + size <= limit
    ensures var size := Little(data, offset + 4, WORD);
            Walk(data, offset, left, limit) ==
            Prepend([Command(offset, Little(data, offset, WORD), size)], Walk(data, offset + size, left - 1, limit))
  {
  }

  /** Both places are accepted, with the sizes that go with them. */
  lemma {:induction false} SampleIsAccepted(data: seq<byte>, size: seq<byte>, place: seq<byte>, filesize: seq<byte>)
    requires IsSample(data, size, place, filesize)
    requires Value(place) <= 72 && Value(place) + Value(filesize) == SAMPLE_LENGTH && Value(size) == RoundedUp(Value(filesize))
    ensures SignatureFields(data) == Ok(SAMPLE_LAYOUT)
  {
    var segment, signature := Command(32, LC_SEGMENT_64, 8), Command(40, LC_CODE_SIGNATURE, 16);
    SampleCommands(data);
    SampleKinds(segment, signature);
    HeadWord(data, 48);
    HeadWord(data, 52);
    assert LastSegment(data, [segment]) == Some(32);
    assert SegmentRefusal(data, 32, 72).None?;
  }

  lemma {:induction false} SampleKinds(segment: Command, signature: Command)
    requires segment.command == LC_SEGMENT_64 && signature.command == LC_CODE_SIGNATURE
    ensures OfKind([segment, signature], LC_CODE_SIGNATURE) == [signature]
    ensures OfKind([segment, signature], LC_SEGMENT_64) == [segment]
  {
    OfOneKind(signature, LC_CODE_SIGNATURE);
    OfOneKind(signature, LC_SEGMENT_64);
    assert [segment, signature][1..] == [signature];
  }

  lemma {:induction false} OfOneKind(c: Command, kind: nat)
    ensures OfKind([c], kind) == if c.command == kind then [c] else []
  {
    assert [c][1..] == [];
    assert OfKind([c][1..], kind) == [];
  }

  function Sample(size: seq<byte>, place: seq<byte>, filesize: seq<byte>): seq<byte>
    requires |size| == 8 && |place| == 8 && |filesize| == 8
  {
    seq(SAMPLE_LENGTH, i requires 0 <= i => if i < 64 then SampleByte(i) else if i < 72 then size[i - 64]
                                            else if i < 80 then place[i - 72] else if i < 88 then filesize[i - 80] else 0)
  }

  function Quad(low: byte, high: byte): (quad: seq<byte>)
    ensures |quad| == 8
  {
    seq(8, i => if i == 0 then low else if i == 1 then high else 0)
  }

  lemma {:induction false} AcceptedSample(size: seq<byte>, place: seq<byte>, filesize: seq<byte>) returns (data: seq<byte>)
    requires |size| == 8 && |place| == 8 && |filesize| == 8
    requires forall i :: 2 <= i < 8 ==> size[i] == 0 && place[i] == 0 && filesize[i] == 0
    requires var s, p, f := TwoBytes(size[0], size[1]), TwoBytes(place[0], place[1]), TwoBytes(filesize[0], filesize[1]);
             p <= 72 && p + f == SAMPLE_LENGTH && s == RoundedUp(f)
    ensures IsSample(data, size, place, filesize) && SignatureFields(data) == Ok(SAMPLE_LAYOUT)
  {
    data := Sample(size, place, filesize);
    assert IsSample(data, size, place, filesize);
    QuadIs(size);
    QuadIs(place);
    QuadIs(filesize);
    SampleIsAccepted(data, size, place, filesize);
  }

  lemma {:induction false} RoundsUpTo(n: nat, k: nat)
    requires SEGMENT_ROUNDING * k < n + SEGMENT_ROUNDING && n <= SEGMENT_ROUNDING * k
    ensures RoundedUp(n) == SEGMENT_ROUNDING * k
  {
  }

  lemma {:induction false} SamplesAgree(one: seq<byte>, two: seq<byte>)
    requires HasSampleHead(one) && HasSampleHead(two)
    requires SignatureFields(one) == Ok(SAMPLE_LAYOUT) && SignatureFields(two) == Ok(SAMPLE_LAYOUT)
    ensures Accepted(one, one) && Accepted(one, two)
  {
    forall i | 0 <= i < 72 && !Within(Ranges(SAMPLE_LAYOUT), i) ensures one[i] == two[i] {
      InThree(SAMPLE_LAYOUT, i);
    }
  }

  /** Where the place of the last segment follows the start of the signature, two files can be accepted
      against one built file and differ before the signature. */
  lemma {:induction false} UncomparedPlaceIsNotFixed() returns (built: seq<byte>, staged: seq<byte>)
    ensures Accepted(built, built) && Accepted(built, staged) && |built| == |staged|
    ensures SignatureFields(built) == Ok(SAMPLE_LAYOUT) && !SegmentIsFixed(SAMPLE_LAYOUT)
    ensures built[..72] != staged[..72]
  {
    RoundsUpTo(0x4001, 2);
    RoundsUpTo(0x3fb9, 1);
    built := AcceptedSample(Quad(0, 0x80), Quad(0, 0), Quad(1, 0x40));
    staged := AcceptedSample(Quad(0, 0x40), Quad(72, 0), Quad(0xb9, 0x3f));
    SamplesAgree(built, staged);
    assert built[64..72][1] == 0x80 && staged[64..72][1] == 0x40;
    assert built[..72][65] == 0x80 && staged[..72][65] == 0x40;
  }
}
