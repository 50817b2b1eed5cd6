/** The map of a coin cache, with the circular doubly linked list that runs through its flagged entries. */
module CoinsTables {
  import opened CoinsViews

  /** A node of the list. */
  datatype Node = Sentinel | Of(key: OutPoint)

  /** The map, and the links of the sentinel and of the flagged entries; a missing link is a null pointer. */
  datatype Table = Table(entries: map<OutPoint, Entry>, prev: map<Node, Node>, next: map<Node, Node>)

  const EMPTY_TABLE := Table(map[], map[Sentinel := Sentinel], map[Sentinel := Sentinel])

  predicate IsFlagged(e: Entry) {
    e.isDirty || e.isFresh
  }

  // ----- the list

  function NodeAt(order: seq<OutPoint>, i: int): Node {
    if 0 <= i < |order| then Of(order[i]) else Sentinel
  }

  ghost predicate Distinct(order: seq<OutPoint>) {
    forall i, j | 0 <= i < j < |order| :: order[i] != order[j]
  }

  function Nodes(order: seq<OutPoint>): set<Node> {
    {Sentinel} + set o | o in order :: Of(o)
  }

  ghost predicate LinkedAt(prev: map<Node, Node>, next: map<Node, Node>, order: seq<OutPoint>, i: int)
    requires 0 <= i < |order|
  {
    && Of(order[i]) in next && next[Of(order[i])] == NodeAt(order, i + 1)
    && Of(order[i]) in prev && prev[Of(order[i])] == NodeAt(order, i - 1)
  }

  ghost predicate SentinelLinked(prev: map<Node, Node>, next: map<Node, Node>, order: seq<OutPoint>) {
    && Sentinel in next && next[Sentinel] == NodeAt(order, 0)
    && Sentinel in prev && prev[Sentinel] == NodeAt(order, |order| - 1)
  }

  /** Following the links visits the sentinel and the given keys, once each, in both directions. */
  ghost predicate Ring(prev: map<Node, Node>, next: map<Node, Node>, order: seq<OutPoint>) {
    && Distinct(order)
    && prev.Keys == Nodes(order) && next.Keys == Nodes(order)
    && SentinelLinked(prev, next, order)
    && forall i | 0 <= i < |order| :: LinkedAt(prev, next, order, i)
  }

  /** The list holds exactly the flagged entries. */
  ghost predicate ListOk(t: Table, order: seq<OutPoint>) {
    && Ring(t.prev, t.next, order)
    && (forall o | o in order :: o in t.entries)
    && (forall o | o in t.entries :: IsFlagged(t.entries[o]) <==> o in order)
  }

  /** Add flags to an entry, appending it to the list unless it is already there. */
  method AddFlags(t: Table, o: OutPoint, dirty: bool, isFresh: bool, ghost order: seq<OutPoint>)
    returns (r: Table, ghost after: seq<OutPoint>)
    requires ListOk(t, order) && o in t.entries && (dirty || isFresh)
    ensures ListOk(r, after)
    ensures var e := t.entries[o]; r.entries == t.entries[o := Entry(e.coin, e.isDirty || dirty, e.isFresh || isFresh)]
  {
    r, after := t, order;
    var e := t.entries[o];
    if !IsFlagged(e) {
      var last := r.prev[Sentinel];
      r := r.(prev := r.prev[Of(o) := last], next := r.next[Of(o) := Sentinel]);
      r := r.(prev := r.prev[Sentinel := Of(o)]);
      r := r.(next := r.next[last := Of(o)]);
      after := order + [o];
      Appended(t.prev, t.next, order, o);
    }
    r := r.(entries := r.entries[o := Entry(e.coin, e.isDirty || dirty, e.isFresh || isFresh)]);
  }

  lemma Appended(prev: map<Node, Node>, next: map<Node, Node>, order: seq<OutPoint>, o: OutPoint)
    requires Ring(prev, next, order) && o !in order
    ensures Ring(prev[Of(o) := prev[Sentinel]][Sentinel := Of(o)], next[Of(o) := Sentinel][prev[Sentinel] := Of(o)], order + [o])
  {
    var after := order + [o];
    var p, n := prev[Of(o) := prev[Sentinel]][Sentinel := Of(o)], next[Of(o) := Sentinel][prev[Sentinel] := Of(o)];
    AppendedNodes(prev, next, order, o);
    forall i | 0 <= i < |after| ensures LinkedAt(p, n, after, i) {
      if i < |order| {
        assert LinkedAt(prev, next, order, i) && order[i] != o;
        IsNodeAt(order, i, |order| - 1);
      } else {
        assert order != [] ==> order[|order| - 1] in order;
      }
    }
    assert order != [] ==> LinkedAt(p, n, after, 0);
  }

  lemma AppendedNodes(prev: map<Node, Node>, next: map<Node, Node>, order: seq<OutPoint>, o: OutPoint)
    requires Ring(prev, next, order)
    ensures prev[Of(o) := prev[Sentinel]][Sentinel := Of(o)].Keys == Nodes(order + [o])
    ensures next[Of(o) := Sentinel][prev[Sentinel] := Of(o)].Keys == Nodes(order + [o])
  {
    assert prev[Sentinel] in next.Keys by {
      assert order != [] ==> LinkedAt(prev, next, order, |order| - 1);
    }
    MoreNodes(order, o);
  }

  lemma MoreNodes(order: seq<OutPoint>, o: OutPoint)
    ensures Nodes(order + [o]) == Nodes(order) + {Of(o)}
  {
  }

  /** Clear an entry's flags, taking it out of the list. */
  method SetClean(t: Table, o: OutPoint, ghost order: seq<OutPoint>) returns (r: Table, ghost after: seq<OutPoint>)
    requires ListOk(t, order) && o in t.entries
    ensures ListOk(r, after) && after == Without(order, o)
    ensures r.entries == t.entries[o := Entry(t.entries[o].coin, false, false)]
  {
    r, after := t, Without(order, o);
    if !IsFlagged(t.entries[o]) {
      WithoutAbsent(order, o);
      assert t.entries[o := Entry(t.entries[o].coin, false, false)] == t.entries;
      return;
    }
    ghost var i: nat :| i < |order| && order[i] == o;
    var prev, next := r.prev[Of(o)], r.next[Of(o)];
    Removed(t.prev, t.next, order, i);
    r := r.(prev := r.prev[next := prev]);
    r := r.(next := r.next[prev := next]);
    r := r.(prev := r.prev - {Of(o)}, next := r.next - {Of(o)});
    r := r.(entries := r.entries[o := Entry(t.entries[o].coin, false, false)]);
    WithoutAt(order, i);
    WithoutMember(order, i);
  }

  function Without(order: seq<OutPoint>, o: OutPoint): seq<OutPoint> {
    if order == [] then [] else (if order[0] == o then [] else [order[0]]) + Without(order[1..], o)
  }

  lemma {:induction false} WithoutAbsent(order: seq<OutPoint>, o: OutPoint)
    requires o !in order
    ensures Without(order, o) == order
  {
    if order != [] {
      WithoutAbsent(order[1..], o);
    }
  }

  lemma {:induction false} WithoutAt(order: seq<OutPoint>, i: nat)
    requires i < |order| && Distinct(order)
    ensures Without(order, order[i]) == order[..i] + order[i + 1..]
  {
    if i == 0 {
      WithoutAbsent(order[1..], order[0]);
    } else {
      WithoutAt(order[1..], i - 1);
      assert order[..i] + order[i + 1..] == [order[0]] + (order[1..][..i - 1] + order[1..][i..]);
    }
  }

  lemma WithoutMember(order: seq<OutPoint>, i: nat)
    requires i < |order| && Distinct(order)
    ensures forall o :: o in order[..i] + order[i + 1..] <==> o in order && o != order[i]
  {
    var after := order[..i] + order[i + 1..];
    forall o | o in order && o != order[i] ensures o in after {
      var k :| 0 <= k < |order| && order[k] == o;
      assert after[if k < i then k else k - 1] == o;
    }
  }

  lemma Removed(prev: map<Node, Node>, next: map<Node, Node>, order: seq<OutPoint>, i: nat)
    requires Ring(prev, next, order) && i < |order|
    ensures Of(order[i]) in prev && Of(order[i]) in next
    ensures var p, n := prev[Of(order[i])], next[Of(order[i])];
            Ring(prev[n := p] - {Of(order[i])}, next[p := n] - {Of(order[i])}, order[..i] + order[i + 1..])
  {
    hide Nodes, NodeAt;
    assert LinkedAt(prev, next, order, i);
    var o, after := order[i], order[..i] + order[i + 1..];
    var before, behind := NodeAt(order, i - 1), NodeAt(order, i + 1);
    var p, n := prev[behind := before] - {Of(o)}, next[before := behind] - {Of(o)};
    RemovedNodes(prev, next, order, i);
    RemovedEnds(prev, next, order, i);
    forall j | 0 <= j < |after| ensures LinkedAt(p, n, after, j) {
      RemovedLink(prev, next, order, i, j);
    }
  }

  lemma RemovedEnds(prev: map<Node, Node>, next: map<Node, Node>, order: seq<OutPoint>, i: nat)
    requires Distinct(order) && SentinelLinked(prev, next, order) && i < |order|
    ensures var before, behind, after := NodeAt(order, i - 1), NodeAt(order, i + 1), order[..i] + order[i + 1..];
            && Distinct(after)
            && SentinelLinked(prev[behind := before] - {Of(order[i])}, next[before := behind] - {Of(order[i])}, after)
  {
  }

  lemma RemovedNodes(prev: map<Node, Node>, next: map<Node, Node>, order: seq<OutPoint>, i: nat)
    requires Ring(prev, next, order) && i < |order|
    ensures var before, behind, after := NodeAt(order, i - 1), NodeAt(order, i + 1), order[..i] + order[i + 1..];
            && (prev[behind := before] - {Of(order[i])}).Keys == Nodes(after)
            && (next[before := behind] - {Of(order[i])}).Keys == Nodes(after)
  {
    assert i > 0 ==> LinkedAt(prev, next, order, i - 1);
    assert i + 1 < |order| ==> LinkedAt(prev, next, order, i + 1);
    FewerNodes(order, i);
  }

  lemma FewerNodes(order: seq<OutPoint>, i: nat)
    requires i < |order| && Distinct(order)
    ensures Nodes(order[..i] + order[i + 1..]) == Nodes(order) - {Of(order[i])}
  {
    WithoutMember(order, i);
  }

  lemma RemovedLink(prev: map<Node, Node>, next: map<Node, Node>, order: seq<OutPoint>, i: nat, j: nat)
    requires Ring(prev, next, order) && i < |order| && j < |order| - 1
    ensures var before, behind, after := NodeAt(order, i - 1), NodeAt(order, i + 1), order[..i] + order[i + 1..];
            LinkedAt(prev[behind := before] - {Of(order[i])}, next[before := behind] - {Of(order[i])}, after, j)
  {
    var k := if j < i then j else j + 1;
    assert LinkedAt(prev, next, order, k);
    assert order[k] != order[i];
    IsNodeAt(order, k, i - 1);
    IsNodeAt(order, k, i + 1);
  }

  lemma IsNodeAt(order: seq<OutPoint>, k: nat, i: int)
    requires Distinct(order) && k < |order|
    ensures Of(order[k]) == NodeAt(order, i) <==> k == i
  {
  }

  /** Erase an entry; its destructor takes it out of the list. */
  method Erase(t: Table, o: OutPoint, ghost order: seq<OutPoint>) returns (r: Table, ghost after: seq<OutPoint>)
    requires ListOk(t, order) && o in t.entries
    ensures ListOk(r, after) && after == Without(order, o)
    ensures r.entries == t.entries - {o}
  {
    hide Ring, Without;
    r, after := SetClean(t, o, order);
    assert !IsFlagged(r.entries[o]);
    r := r.(entries := r.entries - {o});
  }

  /** Put an unflagged entry at a new key. */
  method Emplace(t: Table, o: OutPoint, coin: Coin, ghost order: seq<OutPoint>) returns (r: Table)
    requires ListOk(t, order) && o !in t.entries
    ensures ListOk(r, order)
    ensures r.entries == t.entries[o := Entry(coin, false, false)]
  {
    r := t.(entries := t.entries[o := Entry(coin, false, false)]);
  }

  /** Replace the coin of an entry. */
  method SetCoin(t: Table, o: OutPoint, coin: Coin, ghost order: seq<OutPoint>) returns (r: Table)
    requires ListOk(t, order) && o in t.entries
    ensures ListOk(r, order)
    ensures r.entries == t.entries[o := t.entries[o].(coin := coin)]
  {
    r := t.(entries := t.entries[o := t.entries[o].(coin := coin)]);
  }

  // ----- memory usage

  /** The memory of all coins. */
  ghost function Usage(entries: map<OutPoint, Entry>): nat
    decreases |entries|
  {
    if entries == map[] then 0 else var o :| o in entries; entries[o].coin.script.memory + Usage(entries - {o})
  }

  lemma {:induction false} UsageSplit(entries: map<OutPoint, Entry>, o: OutPoint)
    requires o in entries
    ensures Usage(entries) == entries[o].coin.script.memory + Usage(entries - {o})
    decreases |entries|
  {
    UsageUnfold(entries);
    var p :| p in entries && Usage(entries) == entries[p].coin.script.memory + Usage(entries - {p});
    if p != o {
      UsageSplit(entries - {p}, o);
      UsageSplit(entries - {o}, p);
      assert entries - {p} - {o} == entries - {o} - {p};
    }
  }

  lemma UsageUnfold(entries: map<OutPoint, Entry>)
    requires entries != map[]
    ensures exists p | p in entries :: Usage(entries) == entries[p].coin.script.memory + Usage(entries - {p})
  {
  }

  lemma UsageUpdate(entries: map<OutPoint, Entry>, o: OutPoint, e: Entry)
    ensures Usage(entries[o := e]) ==
            Usage(entries) - (if o in entries then entries[o].coin.script.memory else 0) + e.coin.script.memory
  {
    UsageSplit(entries[o := e], o);
    if o in entries {
      UsageSplit(entries, o);
      assert entries[o := e] - {o} == entries - {o};
    } else {
      assert entries[o := e] - {o} == entries;
    }
  }

  /** Spent entries hold no memory. */
  predicate Tidy(entries: map<OutPoint, Entry>) {
    forall o | o in entries && entries[o].coin.IsSpent() :: entries[o].coin == CLEARED
  }

  /** Erasing spent entries frees nothing that is counted. */
  lemma {:induction false} CleanedUsage(entries: map<OutPoint, Entry>)
    requires Tidy(entries)
    ensures Tidy(Cleaned(entries)) && Usage(Cleaned(entries)) == Usage(entries)
    decreases |entries|
  {
    if entries == map[] {
      assert Cleaned(entries) == map[];
    } else {
      var o :| o in entries;
      CleanedUsage(entries - {o});
      UsageSplit(entries, o);
      if o in Cleaned(entries) {
        UsageSplit(Cleaned(entries), o);
        assert Cleaned(entries) - {o} == Cleaned(entries - {o});
      } else {
        assert Cleaned(entries) == Cleaned(entries - {o});
      }
    }
  }

  lemma EmptyTable()
    ensures ListOk(EMPTY_TABLE, []) && Usage(map[]) == 0 && Tidy(map[])
  {
  }
}
