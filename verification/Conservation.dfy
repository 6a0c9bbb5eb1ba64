/** Every condition that entered the inbox is in it, or left it in exactly one way the engine said. */
module Conservation {
  import opened Common
  import opened Time
  import opened Rules
  import opened Events
  import opened EngineModel
  import opened Runs
  import opened Handoff

  predicate Enters(e: Entry) {
    e.Said? && e.out.Raised?
  }

  predicate Leaves(e: Entry) {
    e.Said? && (e.out.Resolved? || e.out.Ended? || e.out.Dropped?)
  }

  predicate Drops(e: Entry) {
    e.Said? && e.out.Dropped?
  }

  function Count(log: seq<Entry>, which: Entry -> bool): nat {
    if log == [] then 0
    else Count(log[..|log| - 1], which) + if which(log[|log| - 1]) then 1 else 0
  }

  ghost predicate Conserved(w: World) {
    && Count(w.log, Enters) == |w.core.items| + Count(w.log, Leaves)
    && w.core.dropped == Count(w.log, Drops)
  }

  lemma {:induction false} KeysAfter(c: Core, act: Act, r: Reading)
    requires Present(c, act)
    ensures act.Enter? ==> Apply(c, act, r).items.Keys == c.items.Keys + {act.raise.key}
    ensures act.Leave? ==> Apply(c, act, r).items.Keys == c.items.Keys - {act.key}
    ensures !act.Enter? && !act.Leave? ==> Apply(c, act, r).items.Keys == c.items.Keys
  {
  }

  lemma {:induction false} InboxSize(c: Core, act: Act, r: Reading)
    requires Present(c, act)
    ensures |Apply(c, act, r).items| == |c.items| + (if act.Enter? then 1 else if act.Leave? then -1 else 0)
  {
    KeysAfter(c, act, r);
    var keys := Apply(c, act, r).items.Keys;
    assert |Apply(c, act, r).items| == |keys| && |c.items| == |c.items.Keys|;
  }

  lemma {:induction false} ActKeepsConserved(w: World, act: Act)
    requires Conserved(w) && Enabled(w.core, act, w.now)
    ensures Conserved(w.Do(act))
  {
    var more := Note(w.core, act, w.now);
    InboxSize(w.core, act, w.now);
    NoteSays(w.core, act, w.now);
    CountOneMore(w.log, more, Enters);
    CountOneMore(w.log, more, Leaves);
    CountOneMore(w.log, more, Drops);
  }

  /** An act says that something entered, left or was dropped exactly when it did so. */
  lemma {:induction false} NoteSays(c: Core, act: Act, r: Reading)
    requires Present(c, act)
    ensures |Note(c, act, r)| <= 1
    ensures act.Enter? <==> Note(c, act, r) != [] && Enters(Note(c, act, r)[0])
    ensures act.Leave? <==> Note(c, act, r) != [] && Leaves(Note(c, act, r)[0])
    ensures act.Leave? && act.how.Drop? <==> Note(c, act, r) != [] && Drops(Note(c, act, r)[0])
    ensures Apply(c, act, r).dropped == c.dropped + if act.Leave? && act.how.Drop? then 1 else 0
  {
  }

  lemma {:induction false} CountOneMore(log: seq<Entry>, more: seq<Entry>, which: Entry -> bool)
    requires |more| <= 1
    ensures Count(log + more, which) == Count(log, which) + if more != [] && which(more[0]) then 1 else 0
  {
    LogGrows(log, more);
  }

  lemma {:induction false} RestartKeepsConserved(w: World, r: Reading)
    requires Conserved(w)
    ensures Conserved(w.(core := Reanchored(w.core, r), now := r))
  {
    assert Reanchored(w.core, r).items.Keys == w.core.items.Keys;
  }

  // ---- the inbox's bound -------------------------------------------------------------------

  /** What `BoundActs` removes was droppable, settled, not held and past its window at the moment it
      went; what it keeps is untouched; and it stops only inside the bound or with nothing to let go. */
  lemma {:induction false} BoundIsExact(c: Core, r: Reading)
    requires forall k :: k in c.items ==> c.items[k].key == k
    ensures var d := Exec(c, BoundActs(c, r), r);
            && |d.items| <= |c.items|
            && (|c.items| <= MAX_ITEMS ==> d == c)
            && (|d.items| <= MAX_ITEMS || forall k :: k in d.items ==> !Droppable(d.items[k], r))
            && (forall k :: k in d.items ==> k in c.items && d.items[k] == c.items[k])
            && (forall k :: k in c.items && k !in d.items ==> Droppable(c.items[k], r))
    decreases |c.items|
  {
    var victim := Victim(c, r);
    if victim.Some? {
      FewerItems(c, victim.value, r);
      var dropped := Apply(c, Leave(victim.value, Drop), r);
      BoundIsExact(dropped, r);
      var rest := BoundActs(dropped, r);
      assert ([Leave(victim.value, Drop)] + rest)[1..] == rest;
    }
  }

  /** One level asks for less than another. */
  predicate LessUrgent(a: Level, b: Level) {
    (a.Informational? && !b.Informational?) || (a.Notable? && b.Urgent?)
  }

  /** The less urgent goes first, of those alike the one seen first, and then the one named first. */
  predicate GoesFirst(a: Item, b: Item) {
    if a.level != b.level then LessUrgent(a.level, b.level)
    else if a.firstSeen != b.firstSeen then a.firstSeen < b.firstSeen
    else KeyLe(a.key, b.key)
  }

  lemma {:induction false} RankedFirst(a: Item, b: Item)
    requires LexLe(VictimRank(a), VictimRank(b))
    ensures GoesFirst(a, b)
  {
    var x, y := VictimRank(a), VictimRank(b);
    assert x[1..][1..] == KeyRank(a.key) && y[1..][1..] == KeyRank(b.key);
    assert x[0] == a.level.Rank() && x[1..][0] == a.firstSeen && y[0] == b.level.Rank() && y[1..][0] == b.firstSeen;
  }

  /** The bound lets go of the less urgent and the older first, and of no more than it has to. */
  lemma {:induction false} BoundTakesTheLeastUrgent(c: Core, r: Reading, k: Key, x: Key)
    requires k in c.items && k !in Exec(c, BoundActs(c, r), r).items
    requires x in Exec(c, BoundActs(c, r), r).items && x in c.items && Droppable(c.items[x], r)
    ensures GoesFirst(c.items[k], c.items[x]) && |Exec(c, BoundActs(c, r), r).items| >= MAX_ITEMS
    decreases |c.items|
  {
    var victim := Victim(c, r);
    if victim.Some? {
      var v := victim.value;
      FewerItems(c, v, r);
      var dropped := Apply(c, Leave(v, Drop), r);
      var rest := BoundActs(dropped, r);
      assert ([Leave(v, Drop)] + rest)[1..] == rest;
      assert dropped.items == c.items - {v};
      BoundStops(dropped, r);
      BoundKeeps(dropped, r, x);
      if k == v {
        RankedFirst(c.items[k], c.items[x]);
      } else {
        BoundTakesTheLeastUrgent(dropped, r, k, x);
      }
    }
  }

  lemma {:induction false} BoundStops(c: Core, r: Reading)
    requires |c.items| >= MAX_ITEMS
    ensures |Exec(c, BoundActs(c, r), r).items| >= MAX_ITEMS
    decreases |c.items|
  {
    var victim := Victim(c, r);
    if victim.Some? {
      FewerItems(c, victim.value, r);
      var dropped := Apply(c, Leave(victim.value, Drop), r);
      BoundStops(dropped, r);
      assert ([Leave(victim.value, Drop)] + BoundActs(dropped, r))[1..] == BoundActs(dropped, r);
    }
  }

  lemma {:induction false} BoundKeeps(c: Core, r: Reading, k: Key)
    requires k in Exec(c, BoundActs(c, r), r).items
    ensures k in c.items
    decreases |c.items|
  {
    var victim := Victim(c, r);
    if victim.Some? {
      FewerItems(c, victim.value, r);
      var dropped := Apply(c, Leave(victim.value, Drop), r);
      assert ([Leave(victim.value, Drop)] + BoundActs(dropped, r))[1..] == BoundActs(dropped, r);
      BoundKeeps(dropped, r, k);
    }
  }
}
