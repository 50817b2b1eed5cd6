/** The coin caches as objects: each operation does to the fields of a stack of caches what is specified on
    values, and keeps the list of flagged entries and the memory count exact. */
module CoinsCaches {
  import opened CoinsViews
  import opened CoinsTables
  import opened CoinsCursors

  class CoinsDatabase {
    var coins: map<OutPoint, Coin>
    var head: Hash

    ghost predicate Valid()
      reads this
    {
      forall o | o in coins :: !coins[o].IsSpent()
    }

    ghost function State(): CoinsView
      reads this
    {
      Database(coins, head)
    }

    constructor ()
      ensures Valid() && State() == Database(map[], NULL_HASH)
    {
      coins, head := map[], NULL_HASH;
    }

    /** Write the flagged entries of a cache, erasing or cleaning them there on the way unless the whole
        cache is about to be erased. */
    method BatchWrite(theirs: Table, willErase: bool, hash: Hash, ghost order: seq<OutPoint>)
      returns (ok: bool, left: Table, ghost rest: seq<OutPoint>)
      requires Valid() && ListOk(theirs, order)
      modifies this
      ensures Valid() && (ok <==> Written(old(State()), theirs.entries, hash).Ok?)
      ensures State() == if ok then Written(old(State()), theirs.entries, hash).value else old(State())
      ensures ok ==> HandedOver(theirs, left, rest, willErase)
    {
      left, rest := theirs, order;
      ok := hash != NULL_HASH;
      if ok {
        coins, left, rest := WriteToDatabase(coins, theirs, willErase, order);
        head := hash;
      }
    }
  }

  method WriteToDatabase(was: map<OutPoint, Coin>, theirs: Table, willErase: bool, ghost order: seq<OutPoint>)
    returns (coins: map<OutPoint, Coin>, left: Table, ghost rest: seq<OutPoint>)
    requires ListOk(theirs, order)
    ensures coins == WrittenCoins(was, theirs.entries)
    ensures HandedOver(theirs, left, rest, willErase)
  {
    hide ListOk, Traversing, WrittenCoins, Visited, Cleaned;
    coins, left, rest := was, theirs, order;
    ghost var i := 0;
    StartTraversing(theirs, order, willErase);
    NothingVisited(was, map[], theirs.entries, order);
    var it := left.next[Sentinel];
    while it != Sentinel
      invariant i <= |order| && it == NodeAt(order, i) && Traversing(theirs, left, order, rest, i, willErase)
      invariant coins == WrittenCoins(was, Visited(theirs.entries, order[..i]))
      decreases |order| - i
    {
      CurrentEntry(theirs, left, order, rest, i, willErase);
      var o := it.key;
      var e := left.entries[o];
      VisitedMore(theirs.entries, order, i);
      WriteCoinMore(was, Visited(theirs.entries, order[..i]), o, e);
      if e.isDirty {
        coins := if e.coin.IsSpent() then coins - {o} else coins[o := e.coin];
      }
      it, left, rest := Advance(theirs, left, order, rest, i, willErase, o);
      i := i + 1;
    }
    assert order[..i] == order;
    WriteAll(theirs, order, was, map[]);
    EndTraversing(theirs, left, order, rest, willErase);
  }

  method Advance(theirs: Table, left: Table, ghost order: seq<OutPoint>, ghost rest: seq<OutPoint>, ghost i: nat, willErase: bool, o: OutPoint)
    returns (it: Node, left': Table, ghost rest': seq<OutPoint>)
    requires Traversing(theirs, left, order, rest, i, willErase) && i < |order| && o == order[i]
    ensures it == NodeAt(order, i + 1) && Traversing(theirs, left', order, rest', i + 1, willErase)
  {
    CurrentEntry(theirs, left, order, rest, i, willErase);
    it, left', rest' := NextAndMaybeErase(left, o, willErase, rest);
    if !willErase {
      TraverseStep(theirs, left, order, rest, i, left', rest');
    }
  }

  // ----- changes to one cache's table

  method AddToTable(t: Table, usage: int, o: OutPoint, coin: Coin, possibleOverwrite: bool, ghost order: seq<OutPoint>)
    returns (ok: bool, r: Table, used: int, ghost after: seq<OutPoint>)
    requires ListOk(t, order) && usage == Usage(t.entries) && Tidy(t.entries) && !coin.IsSpent()
    ensures ListOk(r, after) && used == Usage(r.entries) && Tidy(r.entries)
    ensures var old_ := if o in t.entries then t.entries[o] else Entry(CLEARED, false, false);
            && (ok <==> possibleOverwrite || old_.coin.IsSpent())
            && (!ok ==> r == t)
            && (ok ==> r.entries == t.entries[o := Entry(coin, true, old_.isFresh || (!possibleOverwrite && !old_.isDirty))])
  {
    hide ListOk, Usage;
    ok, r, used, after := true, t, usage, order;
    if o !in r.entries {
      r := Emplace(r, o, CLEARED, after);
    }
    var e := r.entries[o];
    var isFresh := false;
    if !possibleOverwrite {
      if !e.coin.IsSpent() {
        ok := false;
        return;
      }
      isFresh := !e.isDirty;
    }
    if o in t.entries {
      used := used - e.coin.script.memory;
    }
    r := SetCoin(r, o, coin, after);
    r, after := AddFlags(r, o, true, false, after);
    if isFresh {
      r, after := AddFlags(r, o, false, true, after);
    }
    used := used + coin.script.memory;
    UsageUpdate(t.entries, o, r.entries[o]);
    assert r.entries == t.entries[o := r.entries[o]];
  }

  method SpendInTable(t: Table, usage: int, o: OutPoint, ghost order: seq<OutPoint>)
    returns (r: Table, used: int, ghost after: seq<OutPoint>)
    requires ListOk(t, order) && usage == Usage(t.entries) && Tidy(t.entries) && o in t.entries
    ensures ListOk(r, after) && used == Usage(r.entries) && Tidy(r.entries)
    ensures r.entries == if t.entries[o].isFresh then t.entries - {o} else t.entries[o := Entry(CLEARED, true, false)]
  {
    hide ListOk, Usage;
    used := usage - t.entries[o].coin.script.memory;
    if t.entries[o].isFresh {
      UsageSplit(t.entries, o);
      r, after := Erase(t, o, order);
    } else {
      UsageUpdate(t.entries, o, Entry(CLEARED, true, false));
      r, after := AddFlags(t, o, true, false, order);
      r := SetCoin(r, o, CLEARED, after);
      assert r.entries == t.entries[o := Entry(CLEARED, true, false)];
    }
  }

  /** Write one dirty entry of a child cache. */
  method WriteOne(t: Table, usage: int, o: OutPoint, e: Entry, ghost order: seq<OutPoint>)
    returns (ok: bool, r: Table, used: int, ghost after: seq<OutPoint>)
    requires ListOk(t, order) && usage == Usage(t.entries) && Tidy(t.entries)
    requires e.isDirty && (e.coin.IsSpent() ==> e.coin == CLEARED)
    ensures ListOk(r, after) && used == Usage(r.entries) && Tidy(r.entries)
    ensures ok <==> !Misapplied(t.entries, o, e)
    ensures ok ==> r.entries == Put(t.entries, o, WriteEntry(EntryAt(t.entries, o), e))
  {
    hide ListOk, Usage;
    ok, r, used, after := true, t, usage, order;
    if o !in t.entries {
      if !(e.isFresh && e.coin.IsSpent()) {
        UsageUpdate(t.entries, o, e);
        r := Emplace(r, o, e.coin, after);
        used := used + e.coin.script.memory;
        r, after := AddFlags(r, o, true, false, after);
        if e.isFresh {
          r, after := AddFlags(r, o, false, true, after);
        }
        assert r.entries == t.entries[o := e];
      } else {
        assert t.entries - {o} == t.entries;
      }
    } else if e.isFresh && !t.entries[o].coin.IsSpent() {
      ok := false;
    } else {
      used := used - t.entries[o].coin.script.memory;
      if t.entries[o].isFresh && e.coin.IsSpent() {
        UsageSplit(t.entries, o);
        r, after := Erase(r, o, after);
      } else {
        UsageUpdate(t.entries, o, Entry(e.coin, true, t.entries[o].isFresh));
        r := SetCoin(r, o, e.coin, after);
        used := used + e.coin.script.memory;
        r, after := AddFlags(r, o, true, false, after);
        assert r.entries == t.entries[o := Entry(e.coin, true, t.entries[o].isFresh)];
      }
    }
  }

  method WriteToCache(t: Table, usage: int, theirs: Table, willErase: bool, ghost ours: seq<OutPoint>, ghost order: seq<OutPoint>)
    returns (ok: bool, r: Table, used: int, left: Table, ghost after: seq<OutPoint>, ghost rest: seq<OutPoint>)
    requires ListOk(t, ours) && usage == Usage(t.entries) && Tidy(t.entries)
    requires ListOk(theirs, order) && Tidy(theirs.entries)
    ensures ListOk(r, after) && used == Usage(r.entries) && Tidy(r.entries)
    ensures ok <==> !exists o | o in theirs.entries :: Misapplied(t.entries, o, theirs.entries[o])
    ensures ok ==> r.entries == WrittenEntries(t.entries, theirs.entries) && HandedOver(theirs, left, rest, willErase)
  {
    hide ListOk, Usage, Traversing, WrittenEntries, Visited, HandedOver, WriteEntry;
    ok, r, used, left, after, rest := true, t, usage, theirs, ours, order;
    ghost var i := 0;
    StartTraversing(theirs, order, willErase);
    NothingVisited(map[], t.entries, theirs.entries, order);
    var it := left.next[Sentinel];
    while it != Sentinel
      invariant i <= |order| && it == NodeAt(order, i) && Traversing(theirs, left, order, rest, i, willErase)
      invariant ListOk(r, after) && used == Usage(r.entries) && Tidy(r.entries)
      invariant r.entries == WrittenEntries(t.entries, Visited(theirs.entries, order[..i]))
      invariant NoneMisapplied(t.entries, theirs.entries, order[..i])
      decreases |order| - i
    {
      CurrentEntry(theirs, left, order, rest, i, willErase);
      var o := it.key;
      var e := left.entries[o];
      VisitedMore(theirs.entries, order, i);
      WriteEntryMore(t.entries, Visited(theirs.entries, order[..i]), o, e);
      if e.isDirty {
        ok, r, used, after := WriteOne(r, used, o, e, after);
        if !ok {
          return;
        }
      }
      it, left, rest := Advance(theirs, left, order, rest, i, willErase, o);
      assert order[..i + 1] == order[..i] + [o];
      i := i + 1;
    }
    assert order[..i] == order;
    WriteAll(theirs, order, map[], t.entries);
    AllWritten(t.entries, theirs, order);
    EndTraversing(theirs, left, order, rest, willErase);
  }

  ghost predicate NoneMisapplied(ours: map<OutPoint, Entry>, theirs: map<OutPoint, Entry>, order: seq<OutPoint>) {
    forall o | o in order && o in theirs :: !Misapplied(ours, o, theirs[o])
  }

  lemma AllWritten(ours: map<OutPoint, Entry>, theirs: Table, order: seq<OutPoint>)
    requires ListOk(theirs, order) && NoneMisapplied(ours, theirs.entries, order)
    ensures !exists o | o in theirs.entries :: Misapplied(ours, o, theirs.entries[o])
  {
    forall o | o in theirs.entries ensures !Misapplied(ours, o, theirs.entries[o]) {
      assert theirs.entries[o].isDirty ==> IsFlagged(theirs.entries[o]);
    }
  }

  // ----- recomputing

  ghost function DirtyKeys(entries: map<OutPoint, Entry>): set<OutPoint> {
    set o | o in entries && entries[o].isDirty
  }

  method CountEntries(entries: map<OutPoint, Entry>, ghost below: map<OutPoint, Coin>) returns (usage: int, dirty: nat)
    requires Accurate(below, entries)
    ensures usage == Usage(entries) && dirty == |DirtyKeys(entries)|
  {
    var todo := entries;
    usage, dirty := 0, 0;
    while todo != map[]
      invariant todo.Keys <= entries.Keys && forall o | o in todo :: todo[o] == entries[o]
      invariant usage + Usage(todo) == Usage(entries)
      invariant dirty + |DirtyKeys(todo)| == |DirtyKeys(entries)|
      decreases |todo|
    {
      var o :| o in todo;
      var e := todo[o];
      assert EntryOk(below, o, e);
      if e.coin.IsSpent() {
        assert e.isDirty && !e.isFresh;
      } else {
        assert e.isDirty || !e.isFresh;
      }
      UsageSplit(todo, o);
      usage := usage + e.coin.script.memory;
      DirtyLess(todo, o);
      dirty := if e.isDirty then dirty + 1 else dirty;
      todo := todo - {o};
    }
  }

  lemma DirtyLess(entries: map<OutPoint, Entry>, o: OutPoint)
    requires o in entries
    ensures |DirtyKeys(entries)| == |DirtyKeys(entries - {o})| + if entries[o].isDirty then 1 else 0
  {
    if entries[o].isDirty {
      assert DirtyKeys(entries - {o}) == DirtyKeys(entries) - {o};
    } else {
      assert DirtyKeys(entries - {o}) == DirtyKeys(entries);
    }
  }

  method CountLinked(t: Table, ghost order: seq<OutPoint>) returns (n: nat)
    requires ListOk(t, order)
    ensures n == |order|
  {
    n := 0;
    var it := t.next[Sentinel];
    while it != Sentinel
      invariant n <= |order| && it == NodeAt(order, n)
      decreases |order| - n
    {
      assert LinkedAt(t.prev, t.next, order, n);
      assert n > 0 ==> LinkedAt(t.prev, t.next, order, n - 1);
      assert n + 1 < |order| ==> LinkedAt(t.prev, t.next, order, n + 1);
      assert t.prev[t.next[it]] == it && t.next[t.prev[it]] == it;
      it := t.next[it];
      n := n + 1;
    }
  }

  lemma FlaggedCount(t: Table, order: seq<OutPoint>, below: map<OutPoint, Coin>)
    requires ListOk(t, order) && Accurate(below, t.entries)
    ensures |DirtyKeys(t.entries)| == |order|
  {
    KeysCount(order);
    hide Ring;
    forall o ensures o in DirtyKeys(t.entries) <==> o in order {
      assert o in t.entries ==> EntryOk(below, o, t.entries[o]);
      assert o in t.entries ==> (IsFlagged(t.entries[o]) <==> o in order);
    }
    assert DirtyKeys(t.entries) == Keys(order);
  }

  lemma {:induction false} KeysCount(order: seq<OutPoint>)
    requires Distinct(order)
    ensures |Keys(order)| == |order|
  {
    if order != [] {
      var n := |order| - 1;
      KeysCount(order[..n]);
      assert order == order[..n] + [order[n]];
      assert Keys(order) == Keys(order[..n]) + {order[n]};
    }
  }

  datatype Backing = OnDatabase(database: CoinsDatabase) | OnCache(cache: CoinsCache)

  class CoinsCache {
    const base: Backing
    var hashBlock: Hash
    /** The map of entries, and the sentinel of the list of flagged ones. */
    var table: Table
    var cachedCoinsUsage: int
    /** The keys in list order. */
    ghost var flagged: seq<OutPoint>
    ghost const Repr: set<object>
    ghost const height: nat

    ghost predicate Shaped()
      ensures Shaped() ==> this in Repr
      decreases height
    {
      match base
      case OnDatabase(db) => Repr == {this, db}
      case OnCache(c) => c.height < height && Repr == {this} + c.Repr && this !in c.Repr && c.Shaped()
    }

    /** The list holds exactly the flagged entries, and the memory count is that of all coins. */
    ghost predicate TableOk()
      reads this
    {
      ListOk(table, flagged) && cachedCoinsUsage == Usage(table.entries) && Tidy(table.entries)
    }

    ghost predicate Valid()
      reads this, Repr
      decreases height
    {
      && Shaped() && TableOk()
      && match base
         case OnDatabase(db) => db.Valid()
         case OnCache(c) => c.Valid()
    }

    /** The base of this cache as a value. */
    ghost function Below(): CoinsView
      requires Shaped()
      reads this, Repr
      decreases height, 0
    {
      match base
      case OnDatabase(db) => db.State()
      case OnCache(c) => c.State()
    }

    /** The stack that ends in this cache as a value. */
    ghost function State(): CoinsView
      requires Shaped()
      reads this, Repr
      decreases height, 1
    {
      Cache(table.entries, hashBlock, Below())
    }

    lemma StateReadable()
      requires Valid()
      ensures Readable(State())
      decreases height
    {
      if base.OnCache? {
        base.cache.StateReadable();
      }
    }

    constructor OnDatabase(db: CoinsDatabase)
      requires db.Valid()
      ensures Valid() && State() == Cache(map[], NULL_HASH, db.State()) && fresh(this)
    {
      base := Backing.OnDatabase(db);
      hashBlock, table, cachedCoinsUsage, flagged := NULL_HASH, EMPTY_TABLE, 0, [];
      Repr, height := {this, db}, 0;
    }

    constructor OnCache(c: CoinsCache)
      requires c.Valid()
      ensures Valid() && State() == Cache(map[], NULL_HASH, c.State()) && fresh(this)
    {
      base := Backing.OnCache(c);
      hashBlock, table, cachedCoinsUsage, flagged := NULL_HASH, EMPTY_TABLE, 0, [];
      Repr, height := {this} + c.Repr, c.height + 1;
      new;
      hide ListOk, Usage;
      EmptyTable();
    }

    method GetFromBase(o: OutPoint) returns (r: Option<Coin>)
      requires Valid()
      modifies Repr - {this}
      ensures Valid() && Below() == Fetched(old(Below()), o) && r == CoinsViews.GetCoin(old(Below()), o)
      ensures r.Some? ==> !r.value.IsSpent()
      decreases height, 0
    {
      match base
      case OnDatabase(db) => r := if o in db.coins then Some(db.coins[o]) else None;
      case OnCache(c) => r := c.GetCoin(o);
    }

    /** Find an entry, fetching it from the base if it is not here yet. */
    method FetchCoin(o: OutPoint) returns (found: bool)
      requires Valid()
      modifies Repr
      ensures Valid() && State() == Fetched(old(State()), o) && (found <==> o in table.entries)
      decreases height, 1
    {
      hide ListOk, Usage, Fetched, CoinsViews.GetCoin;
      FetchedStep(State(), o);
      found := true;
      if o !in table.entries {
        var coin := GetFromBase(o);
        match coin
        case Some(c) =>
          UsageUpdate(table.entries, o, Entry(c, false, false));
          table := Emplace(table, o, c, flagged);
          cachedCoinsUsage := cachedCoinsUsage + c.script.memory;
        case None =>
          found := false;
      }
    }

    method GetCoin(o: OutPoint) returns (r: Option<Coin>)
      requires Valid()
      modifies Repr
      ensures Valid() && State() == Fetched(old(State()), o) && r == CoinsViews.GetCoin(old(State()), o)
      ensures r.Some? ==> !r.value.IsSpent()
      decreases height, 2
    {
      hide ListOk, Usage, Fetched, CoinsViews.GetCoin;
      StateReadable();
      FetchedCoin(State(), o);
      var found := FetchCoin(o);
      r := if found && !table.entries[o].coin.IsSpent() then Some(table.entries[o].coin) else None;
    }

    /** Add a coin; fails if an unspent coin would be overwritten unannounced. */
    method AddCoin(o: OutPoint, coin: Coin, possibleOverwrite: bool) returns (ok: bool)
      requires Valid() && !coin.IsSpent()
      modifies this
      ensures Valid() && (ok <==> Added(old(State()), o, coin, possibleOverwrite).Ok?)
      ensures State() == if ok then Added(old(State()), o, coin, possibleOverwrite).value else old(State())
    {
      hide ListOk, Usage;
      ok := true;
      if !coin.script.IsUnspendable() {
        ok, table, cachedCoinsUsage, flagged := AddToTable(table, cachedCoinsUsage, o, coin, possibleOverwrite, flagged);
      }
    }

    /** Spend a coin and return it. */
    method SpendCoin(o: OutPoint) returns (found: bool, moved: Coin)
      requires Valid()
      modifies Repr
      ensures Valid() && State() == Spent(old(State()), o)
      ensures var f := Fetched(old(State()), o);
              (found <==> o in f.entries) && moved == if found then f.entries[o].coin else CLEARED
    {
      hide ListOk, Usage, Fetched;
      moved := CLEARED;
      found := FetchCoin(o);
      if found {
        moved := table.entries[o].coin;
        table, cachedCoinsUsage, flagged := SpendInTable(table, cachedCoinsUsage, o, flagged);
      }
    }

    method HaveCoin(o: OutPoint) returns (have: bool)
      requires Valid()
      modifies Repr
      ensures Valid() && State() == Fetched(old(State()), o) && (have <==> CoinsViews.GetCoin(old(State()), o).Some?)
    {
      hide ListOk, Usage, Fetched, CoinsViews.GetCoin;
      StateReadable();
      FetchedCoin(State(), o);
      var found := FetchCoin(o);
      have := found && !table.entries[o].coin.IsSpent();
    }

    method GetBestBlock() returns (r: Hash)
      requires Valid()
      modifies Repr
      ensures Valid() && State() == BestFetched(old(State())) && r == Best(old(State()))
      decreases height
    {
      hide ListOk, Usage;
      if hashBlock == NULL_HASH {
        match base
        case OnDatabase(db) => hashBlock := db.head;
        case OnCache(c) =>
          var h := c.GetBestBlock();
          hashBlock := h;
      }
      r := hashBlock;
    }

    /** Drop an unmodified entry. */
    method Uncache(o: OutPoint)
      requires Valid()
      modifies this
      ensures Valid() && State() == Uncached(old(State()), o)
      ensures SameElsewhere(old(table.entries), table.entries, o)
      ensures o in table.entries <==> old(o in table.entries && table.entries[o].isDirty)
    {
      hide ListOk, Usage;
      if o in table.entries && !table.entries[o].isDirty {
        UsageSplit(table.entries, o);
        cachedCoinsUsage := cachedCoinsUsage - table.entries[o].coin.script.memory;
        table, flagged := Erase(table, o, flagged);
      }
    }

    /** Take over the flagged entries of a cache on top of this one; fails if a fresh one is unspent here. */
    method BatchWrite(theirs: Table, willErase: bool, hash: Hash, ghost order: seq<OutPoint>)
      returns (ok: bool, left: Table, ghost rest: seq<OutPoint>)
      requires Valid() && ListOk(theirs, order) && Tidy(theirs.entries)
      modifies this
      ensures Valid() && (ok <==> Written(old(State()), theirs.entries, hash).Ok?)
      ensures ok ==> State() == Written(old(State()), theirs.entries, hash).value
      ensures ok ==> HandedOver(theirs, left, rest, willErase)
    {
      hide ListOk, Usage;
      ok, table, cachedCoinsUsage, left, flagged, rest := WriteToCache(table, cachedCoinsUsage, theirs, willErase, flagged, order);
      if ok {
        hashBlock := hash;
      }
    }

    method WriteToBase(willErase: bool) returns (ok: bool, left: Table, ghost rest: seq<OutPoint>)
      requires Valid()
      modifies Repr - {this}
      ensures Valid() && (ok <==> Written(old(Below()), table.entries, hashBlock).Ok?)
      ensures ok ==> Below() == Written(old(Below()), table.entries, hashBlock).value
      ensures ok ==> HandedOver(table, left, rest, willErase)
    {
      hide ListOk, Usage, Written, HandedOver;
      match base
      case OnDatabase(db) => ok, left, rest := db.BatchWrite(table, willErase, hashBlock, flagged);
      case OnCache(c) => ok, left, rest := c.BatchWrite(table, willErase, hashBlock, flagged);
    }

    /** Push all changes to the base and wipe this cache. */
    method Flush() returns (ok: bool)
      requires Valid()
      modifies Repr
      ensures Valid() && (ok <==> Flushed(old(State())).Ok?)
      ensures ok ==> State() == Flushed(old(State())).value
    {
      hide Written, HandedOver, ListOk, Usage;
      EmptyTable();
      var left;
      ghost var rest;
      ok, left, rest := WriteToBase(true);
      if ok {
        table, flagged, cachedCoinsUsage := EMPTY_TABLE, [], 0;
      }
    }

    /** Push all changes to the base and keep the unspent entries. */
    method Sync() returns (ok: bool)
      requires Valid()
      modifies Repr
      ensures Valid() && (ok <==> Synced(old(State())).Ok?)
      ensures ok ==> State() == Synced(old(State())).value
      ensures ok ==> Sentinel in table.next && table.next[Sentinel] == Sentinel
    {
      hide ListOk, Usage, Written, Cleaned;
      var left;
      ghost var rest;
      ok, left, rest := WriteToBase(false);
      if ok {
        CleanedUsage(table.entries);
        table, flagged := left, rest;
        StartTraversing(table, flagged, false);
      }
    }

    /** Recompute the memory and the number of flagged entries, and check the flags of every entry. */
    method SanityCheck() returns (usage: int, dirty: nat, linked: nat)
      requires Valid() && CoinsViews.Valid(State())
      ensures usage == cachedCoinsUsage && dirty == linked
    {
      usage, dirty := CountEntries(table.entries, Coins(Below()));
      linked := CountLinked(table, flagged);
      FlaggedCount(table, flagged, Coins(Below()));
    }
  }
}
