/** The cursors a reader whose history has a bound is shown: invertible over what it can have been
    shown, and telling it nothing of how much lies before its history. */
module Numbering {
  import opened Common

  const U64_MAX: nat := 0xFFFF_FFFF_FFFF_FFFF
  const CURSOR_OFFSET_FLOOR: nat := 0x1000_0000_0000_0000

  function SaturatingAdd(a: nat, b: nat): nat {
    Min(a + b, U64_MAX)
  }

  /** The offset drawn from the head of a keyed digest. */
  function CursorOffset(head: nat): (offset: nat)
    ensures CURSOR_OFFSET_FLOOR <= offset < 2 * CURSOR_OFFSET_FLOOR
  {
    CURSOR_OFFSET_FLOOR + head % CURSOR_OFFSET_FLOOR
  }

  datatype Numbering = Numbering(offset: nat, floor: nat, ceiling: nat) {
    function Shown(cursor: nat): nat {
      SaturatingAdd(if cursor < floor then floor else cursor, offset)
    }

    function Cursor(shown: nat): Option<nat> {
      if shown < offset then None
      else if floor <= shown - offset <= ceiling then Some(shown - offset)
      else None
    }

    /** Drawn as the store draws it, over a log whose cursors are below 2^60. */
    ghost predicate Drawn() {
      CURSOR_OFFSET_FLOOR <= offset < 2 * CURSOR_OFFSET_FLOOR && floor <= ceiling < CURSOR_OFFSET_FLOOR
    }
  }

  /** Showing a cursor and reading it back gives the place in the reader's history it stands for, and
      every number read back shows as itself; the numbers taken are exactly those that can be shown. */
  lemma {:induction false} NumberingRoundTrips(n: Numbering, cursor: nat, number: nat)
    requires n.Drawn() && cursor <= n.ceiling
    ensures n.Cursor(n.Shown(cursor)) == Some(Max(cursor, n.floor))
    ensures n.Cursor(number).Some? ==> n.Shown(n.Cursor(number).value) == number
    ensures n.Cursor(number).Some? <==> n.Shown(n.floor) <= number <= n.Shown(n.ceiling)
    ensures n.Cursor(number).Some? <==> exists c: nat :: c <= n.ceiling && n.Shown(c) == number
  {
    if n.Cursor(number).Some? { assert n.Shown(n.Cursor(number).value) == number; }
    forall c: nat | c <= n.ceiling && n.Shown(c) == number ensures n.Cursor(number).Some? {}
  }

  /** What a reader is told of a log: the number of each place from where its history starts. */
  ghost predicate ToldAlike(a: Numbering, b: Numbering) {
    a.Shown(a.floor) == b.Shown(b.floor) && a.ceiling - a.floor == b.ceiling - b.floor
  }

  /** Two logs that differ only in how much lies before the reader's history number everything after it
      alike and take the same numbers back, so the reader cannot tell them apart. */
  lemma {:induction false} CountBeforeTheFloorIsHidden(a: Numbering, b: Numbering, number: nat, step: nat)
    requires a.Drawn() && b.Drawn() && ToldAlike(a, b)
    ensures a.Cursor(number).Some? <==> b.Cursor(number).Some?
    ensures a.Cursor(number).Some? ==> a.Cursor(number).value - a.floor == b.Cursor(number).value - b.floor
    ensures step <= a.ceiling - a.floor ==> a.Shown(a.floor + step) == b.Shown(b.floor + step)
  {
    assert a.floor + a.offset == b.floor + b.offset;
  }
}
