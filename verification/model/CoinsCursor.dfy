/** Iterating over the flagged entries of a coin cache, erasing or cleaning them on the way. */
module CoinsCursors {
  import opened CoinsViews
  import opened CoinsTables

  /** Go to the next flagged entry, possibly erasing the current one. */
  method NextAndMaybeErase(t: Table, o: OutPoint, willErase: bool, ghost order: seq<OutPoint>)
    returns (next: Node, r: Table, ghost after: seq<OutPoint>)
    requires ListOk(t, order) && o in order
    ensures Of(o) in t.next && next == t.next[Of(o)]
    ensures ListOk(r, after)
    ensures if willErase then r == t && after == order else r.entries == CleanedSome(t.entries, {o}) && after == Without(order, o)
  {
    ghost var i: nat :| i < |order| && order[i] == o;
    assert LinkedAt(t.prev, t.next, order, i);
    next, r, after := t.next[Of(o)], t, order;
    if !willErase {
      if t.entries[o].coin.IsSpent() {
        r, after := Erase(t, o, order);
      } else {
        r, after := SetClean(t, o, order);
      }
    }
  }

  /** The entries after some flagged ones were erased or cleaned. */
  function CleanedSome(entries: map<OutPoint, Entry>, done: set<OutPoint>): map<OutPoint, Entry> {
    map o | o in entries && !(o in done && entries[o].coin.IsSpent()) ::
      if o in done then entries[o].(isDirty := false, isFresh := false) else entries[o]
  }

  function Keys(order: seq<OutPoint>): set<OutPoint> {
    set o | o in order
  }

  /** The entries that were visited. */
  function Visited(entries: map<OutPoint, Entry>, order: seq<OutPoint>): map<OutPoint, Entry> {
    map o | o in entries && o in order :: entries[o]
  }

  /** The cursor is at index `i` of the list. */
  ghost predicate Traversing(theirs: Table, left: Table, order: seq<OutPoint>, rest: seq<OutPoint>, i: nat, willErase: bool) {
    && i <= |order| && ListOk(theirs, order) && ListOk(left, rest)
    && if willErase then left == theirs && rest == order
       else rest == order[i..] && left.entries == CleanedSome(theirs.entries, Keys(order[..i]))
  }

  lemma StartTraversing(t: Table, order: seq<OutPoint>, willErase: bool)
    requires ListOk(t, order)
    ensures Traversing(t, t, order, order, 0, willErase)
    ensures Sentinel in t.next && t.next[Sentinel] == NodeAt(order, 0)
  {
    assert order[0..] == order;
  }

  /** The current entry is still as it was, and is followed by the next one. */
  lemma CurrentEntry(theirs: Table, left: Table, order: seq<OutPoint>, rest: seq<OutPoint>, i: nat, willErase: bool)
    requires Traversing(theirs, left, order, rest, i, willErase) && i < |order|
    ensures var o := order[i];
            && o in theirs.entries && o in left.entries && left.entries[o] == theirs.entries[o]
            && o in rest && Of(o) in left.next && left.next[Of(o)] == NodeAt(order, i + 1)
    ensures Distinct(order)
  {
    assert Distinct(order);
    var j := if willErase then i else 0;
    assert rest[j] == order[i];
    assert LinkedAt(left.prev, left.next, rest, j);
  }

  lemma TraverseStep(theirs: Table, left: Table, order: seq<OutPoint>, rest: seq<OutPoint>, i: nat, left': Table, rest': seq<OutPoint>)
    requires Traversing(theirs, left, order, rest, i, false) && i < |order|
    requires left'.entries == CleanedSome(left.entries, {order[i]}) && rest' == Without(rest, order[i]) && ListOk(left', rest')
    ensures Traversing(theirs, left', order, rest', i + 1, false)
  {
    assert rest[0] == order[i];
    WithoutAt(rest, 0);
    assert rest[..0] + rest[1..] == order[i + 1..];
    CleanedMore(theirs.entries, order, i);
  }

  lemma CleanedMore(entries: map<OutPoint, Entry>, order: seq<OutPoint>, i: nat)
    requires i < |order| && Distinct(order)
    ensures CleanedSome(CleanedSome(entries, Keys(order[..i])), {order[i]}) == CleanedSome(entries, Keys(order[..i + 1]))
  {
    assert Keys(order[..i + 1]) == Keys(order[..i]) + {order[i]};
    assert order[i] !in Keys(order[..i]);
    CleanedTwice(entries, Keys(order[..i]), order[i]);
  }

  lemma CleanedTwice(entries: map<OutPoint, Entry>, done: set<OutPoint>, o: OutPoint)
    requires o !in done
    ensures CleanedSome(CleanedSome(entries, done), {o}) == CleanedSome(entries, done + {o})
  {
  }

  /** What a cache's entries become when they are written to its base. */
  ghost predicate HandedOver(theirs: Table, left: Table, rest: seq<OutPoint>, willErase: bool) {
    && ListOk(left, rest)
    && if willErase then left == theirs else left.entries == Cleaned(theirs.entries) && rest == []
  }

  lemma EndTraversing(theirs: Table, left: Table, order: seq<OutPoint>, rest: seq<OutPoint>, willErase: bool)
    requires Traversing(theirs, left, order, rest, |order|, willErase)
    ensures HandedOver(theirs, left, rest, willErase)
  {
    hide Ring;
    assert order[..|order|] == order;
    forall o | o in theirs.entries ensures IsFlagged(theirs.entries[o]) <==> o in Keys(order) {
    }
  }

  // ----- writing what was visited

  lemma VisitedMore(entries: map<OutPoint, Entry>, order: seq<OutPoint>, i: nat)
    requires i < |order| && Distinct(order) && order[i] in entries
    ensures Visited(entries, order[..i + 1]) == Visited(entries, order[..i])[order[i] := entries[order[i]]]
    ensures order[i] !in Visited(entries, order[..i])
  {
    assert order[..i + 1] == order[..i] + [order[i]];
  }

  lemma NothingVisited(coins: map<OutPoint, Coin>, ours: map<OutPoint, Entry>, theirs: map<OutPoint, Entry>, order: seq<OutPoint>)
    ensures WrittenCoins(coins, Visited(theirs, order[..0])) == coins
    ensures WrittenEntries(ours, Visited(theirs, order[..0])) == ours
  {
  }

  lemma WriteCoinMore(was: map<OutPoint, Coin>, done: map<OutPoint, Entry>, o: OutPoint, e: Entry)
    requires o !in done
    ensures WrittenCoins(was, done[o := e]) ==
            if !e.isDirty then WrittenCoins(was, done)
            else if e.coin.IsSpent() then WrittenCoins(was, done) - {o}
            else WrittenCoins(was, done)[o := e.coin]
  {
  }

  /** Set or remove an entry. */
  function Put(entries: map<OutPoint, Entry>, o: OutPoint, e: Option<Entry>): map<OutPoint, Entry> {
    match e
    case None => entries - {o}
    case Some(x) => entries[o := x]
  }

  lemma WriteEntryMore(was: map<OutPoint, Entry>, done: map<OutPoint, Entry>, o: OutPoint, e: Entry)
    requires o !in done
    ensures EntryAt(WrittenEntries(was, done), o) == EntryAt(was, o)
    ensures WrittenEntries(was, done[o := e]) ==
            if !e.isDirty then WrittenEntries(was, done)
            else Put(WrittenEntries(was, done), o, WriteEntry(EntryAt(was, o), e))
  {
    hide WriteEntry;
    var more := done[o := e];
    forall k ensures WrittenAt(was, more, k) == if k == o && e.isDirty then WriteEntry(EntryAt(was, o), e) else WrittenAt(was, done, k) {
    }
  }

  /** Writing only the flagged entries writes everything. */
  lemma WriteAll(t: Table, order: seq<OutPoint>, coins: map<OutPoint, Coin>, entries: map<OutPoint, Entry>)
    requires ListOk(t, order)
    ensures WrittenCoins(coins, Visited(t.entries, order)) == WrittenCoins(coins, t.entries)
    ensures WrittenEntries(entries, Visited(t.entries, order)) == WrittenEntries(entries, t.entries)
  {
    hide Ring;
    var some := Visited(t.entries, order);
    forall o ensures DirtyAt(some, o) == DirtyAt(t.entries, o) {
      assert o in t.entries && t.entries[o].isDirty ==> IsFlagged(t.entries[o]);
    }
    SameCoins(coins, some, t.entries);
    SameEntries(entries, some, t.entries);
  }

  function DirtyAt(entries: map<OutPoint, Entry>, o: OutPoint): Option<Entry> {
    if o in entries && entries[o].isDirty then Some(entries[o]) else None
  }

  lemma SameCoins(coins: map<OutPoint, Coin>, a: map<OutPoint, Entry>, b: map<OutPoint, Entry>)
    requires forall o :: DirtyAt(a, o) == DirtyAt(b, o)
    ensures WrittenCoins(coins, a) == WrittenCoins(coins, b)
  {
    var x, y := WrittenCoins(coins, a), WrittenCoins(coins, b);
    forall o ensures (o in x <==> o in y) && (o in x ==> x[o] == y[o]) {
      assert DirtyAt(a, o) == DirtyAt(b, o);
    }
  }

  lemma SameEntries(entries: map<OutPoint, Entry>, a: map<OutPoint, Entry>, b: map<OutPoint, Entry>)
    requires forall o :: DirtyAt(a, o) == DirtyAt(b, o)
    ensures WrittenEntries(entries, a) == WrittenEntries(entries, b)
  {
    hide WriteEntry;
    var x, y := WrittenEntries(entries, a), WrittenEntries(entries, b);
    forall o ensures (o in x <==> o in y) && (o in x ==> x[o] == y[o]) {
      assert DirtyAt(a, o) == DirtyAt(b, o);
      assert WrittenAt(entries, a, o) == WrittenAt(entries, b, o);
    }
  }
}
