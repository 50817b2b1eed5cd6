/** The set of unspent transaction outputs as seen through any number of write-back caches stacked on a
    database, as values. */
module CoinsViews {
  datatype Option<T> = None | Some(value: T)
  datatype CoinsError = OverwroteUnspent | FreshMisapplied | NullBlock | NoSuchCache | AddedSpent
  datatype Result<T> = Ok(value: T) | Err(error: CoinsError)

  /** A block hash; zero is the null hash. */
  type Hash = nat
  const NULL_HASH: Hash := 0

  datatype OutPoint = OutPoint(hash: Hash, n: nat)

  const OP_RETURN: nat := 0x6a
  const MAX_SCRIPT_SIZE := 10000

  /** A script together with the memory allocated for it. */
  datatype Script = Script(bytes: seq<nat>, memory: nat) {
    predicate IsUnspendable() {
      (|bytes| > 0 && bytes[0] == OP_RETURN) || |bytes| > MAX_SCRIPT_SIZE
    }
  }

  datatype Coin = Coin(amount: int, script: Script, coinBase: bool, height: nat) {
    predicate IsSpent() {
      amount == -1
    }
  }

  const CLEARED := Coin(-1, Script([], 0), false, 0)

  datatype Entry = Entry(coin: Coin, isDirty: bool, isFresh: bool)

  datatype CoinsView =
    | Database(coins: map<OutPoint, Coin>, head: Hash)
    | Cache(entries: map<OutPoint, Entry>, best: Hash, base: CoinsView)

  // ----- what a view shows

  function Overlay(below: map<OutPoint, Coin>, entries: map<OutPoint, Entry>): map<OutPoint, Coin> {
    map o | o in below.Keys + entries.Keys && (o in entries ==> !entries[o].coin.IsSpent()) ::
      if o in entries then entries[o].coin else below[o]
  }

  function Coins(v: CoinsView): map<OutPoint, Coin> {
    match v
    case Database(coins, _) => coins
    case Cache(entries, _, base) => Overlay(Coins(base), entries)
  }

  /** The best block of a view: a cache without one shows that of its base. */
  function Best(v: CoinsView): Hash {
    match v
    case Database(_, head) => head
    case Cache(_, best, base) => if best == NULL_HASH then Best(base) else best
  }

  // ----- what every operation keeps

  /** The four legal combinations of flags. */
  predicate Legal(e: Entry) {
    if e.coin.IsSpent() then e.isDirty && !e.isFresh && e.coin == CLEARED else e.isFresh ==> e.isDirty
  }

  /** A fresh entry has no unspent coin below it, and a clean one repeats what is below it. */
  ghost predicate EntryOk(below: map<OutPoint, Coin>, o: OutPoint, e: Entry) {
    && Legal(e)
    && (e.isFresh ==> o !in below)
    && (!e.isDirty ==> o in below && below[o] == e.coin)
  }

  ghost predicate Accurate(below: map<OutPoint, Coin>, entries: map<OutPoint, Entry>) {
    forall o | o in entries :: EntryOk(below, o, entries[o])
  }

  ghost predicate Valid(v: CoinsView) {
    match v
    case Database(coins, _) => forall o | o in coins :: !coins[o].IsSpent()
    case Cache(entries, _, base) => Valid(base) && Accurate(Coins(base), entries)
  }

  lemma {:induction false} OnlyUnspent(v: CoinsView, o: OutPoint)
    requires Valid(v) && o in Coins(v)
    ensures !Coins(v)[o].IsSpent()
  {
    if v.Cache? && o !in v.entries {
      OnlyUnspent(v.base, o);
    }
  }

  // ----- lookups

  /** The coin that a lookup returns. */
  function GetCoin(v: CoinsView, o: OutPoint): Option<Coin> {
    match v
    case Database(coins, _) => if o in coins then Some(coins[o]) else None
    case Cache(entries, _, base) =>
      if o !in entries then GetCoin(base, o)
      else if entries[o].coin.IsSpent() then None else Some(entries[o].coin)
  }

  /** The view after a lookup: each cache on the way keeps a copy of what its base returned. */
  function Fetched(v: CoinsView, o: OutPoint): CoinsView {
    match v
    case Database(_, _) => v
    case Cache(entries, best, base) =>
      if o in entries then v
      else match GetCoin(base, o)
        case Some(coin) => Cache(entries[o := Entry(coin, false, false)], best, Fetched(base, o))
        case None => Cache(entries, best, Fetched(base, o))
  }

  lemma FetchedStep(v: CoinsView, o: OutPoint)
    requires v.Cache?
    ensures Fetched(v, o) ==
            if o in v.entries then v
            else match GetCoin(v.base, o)
              case Some(coin) => Cache(v.entries[o := Entry(coin, false, false)], v.best, Fetched(v.base, o))
              case None => v.(base := Fetched(v.base, o))
  {
  }

  /** The database holds no spent coins. */
  predicate Readable(v: CoinsView) {
    match v
    case Database(coins, _) => forall o | o in coins :: !coins[o].IsSpent()
    case Cache(_, _, base) => Readable(base)
  }

  lemma {:induction false} GetsUnspent(v: CoinsView, o: OutPoint)
    requires Readable(v) && GetCoin(v, o).Some?
    ensures !GetCoin(v, o).value.IsSpent()
  {
    if v.Cache? && o !in v.entries {
      GetsUnspent(v.base, o);
    }
  }

  lemma FetchedCoin(v: CoinsView, o: OutPoint)
    requires Readable(v) && v.Cache?
    ensures var f := Fetched(v, o);
            && f.Cache?
            && GetCoin(v, o) == if o in f.entries && !f.entries[o].coin.IsSpent() then Some(f.entries[o].coin) else None
  {
    if GetCoin(v.base, o).Some? {
      GetsUnspent(v.base, o);
    }
  }

  lemma {:induction false} GetCoinIsLookup(v: CoinsView, o: OutPoint)
    ensures GetCoin(v, o) == if o in Coins(v) then Some(Coins(v)[o]) else None
  {
    if v.Cache? {
      GetCoinIsLookup(v.base, o);
    }
  }

  lemma {:induction false} FetchKeepsView(v: CoinsView, o: OutPoint)
    requires Valid(v)
    ensures Valid(Fetched(v, o)) && Coins(Fetched(v, o)) == Coins(v) && Best(Fetched(v, o)) == Best(v)
    ensures v.Cache? ==> Fetched(v, o).Cache? && (o in Fetched(v, o).entries <==> o in v.entries || o in Coins(v))
    ensures v.Cache? ==> Coins(Fetched(v, o).base) == Coins(v.base)
  {
    if v.Cache? {
      FetchKeepsView(v.base, o);
      GetCoinIsLookup(v.base, o);
      if o in Coins(v.base) && o !in v.entries {
        OnlyUnspent(v.base, o);
        CopyKeepsView(Coins(v.base), v.entries, o);
      }
    }
  }

  lemma CopyKeepsView(below: map<OutPoint, Coin>, entries: map<OutPoint, Entry>, o: OutPoint)
    requires Accurate(below, entries) && o in below && !below[o].IsSpent() && o !in entries
    ensures Accurate(below, entries[o := Entry(below[o], false, false)])
    ensures Overlay(below, entries[o := Entry(below[o], false, false)]) == Overlay(below, entries)
  {
  }

  /** The entries of all outpoints but one are the same. */
  ghost predicate SameElsewhere(a: map<OutPoint, Entry>, b: map<OutPoint, Entry>, o: OutPoint) {
    forall p | p != o :: EntryAt(a, p) == EntryAt(b, p)
  }

  /** A lookup adds at most a clean copy of the coin to a cache, and never touches what the cache has. */
  lemma FetchOnlyCopies(v: CoinsView, o: OutPoint)
    requires v.Cache?
    ensures var f := Fetched(v, o);
            && f.Cache? && f.best == v.best && SameElsewhere(v.entries, f.entries, o)
            && (o in v.entries ==> f == v)
            && (o !in v.entries ==> f.base == Fetched(v.base, o))
            && (o !in v.entries && GetCoin(v.base, o).None? ==> o !in f.entries)
            && (o !in v.entries && GetCoin(v.base, o).Some? ==>
                  o in f.entries && f.entries[o] == Entry(GetCoin(v.base, o).value, false, false))
  {
    hide GetCoin;
    FetchedStep(v, o);
  }

  // ----- changes

  /** Adding a coin. */
  function Added(v: CoinsView, o: OutPoint, coin: Coin, possibleOverwrite: bool): Result<CoinsView>
    requires v.Cache? && !coin.IsSpent()
  {
    if coin.script.IsUnspendable() then Ok(v)
    else
      var old_ := if o in v.entries then v.entries[o] else Entry(CLEARED, false, false);
      if !possibleOverwrite && !old_.coin.IsSpent() then Err(OverwroteUnspent)
      else
        var isFresh := !possibleOverwrite && !old_.isDirty;
        Ok(v.(entries := v.entries[o := Entry(coin, true, old_.isFresh || isFresh)]))
  }

  /** Adding a coin is a map update exactly if overwriting is announced or nothing is overwritten. */
  lemma AddIsUpdate(v: CoinsView, o: OutPoint, coin: Coin, possibleOverwrite: bool)
    requires Valid(v) && v.Cache? && !coin.IsSpent()
    ensures var r := Added(v, o, coin, possibleOverwrite);
            && (r.Ok? && Valid(r.value) <==> coin.script.IsUnspendable() || possibleOverwrite || o !in Coins(v))
            && (r.Ok? ==> Coins(r.value) == if coin.script.IsUnspendable() then Coins(v) else Coins(v)[o := coin])
            && (r.Ok? ==> r.value.Cache? && r.value.base == v.base && r.value.best == v.best)
  {
    hide EntryAt, SameElsewhere;
    var r := Added(v, o, coin, possibleOverwrite);
    if r.Ok? && !coin.script.IsUnspendable() {
      AddShows(v, o, r.value.entries[o]);
      if possibleOverwrite || o !in Coins(v) {
        AddValid(v, o, r.value.entries[o]);
      } else {
        assert !EntryOk(Coins(v.base), o, r.value.entries[o]);
      }
    }
  }

  /** The added entry is dirty; it is fresh if the coin cannot be in the base: it already was, or no overwrite is
      announced and no change of the coin is pending. An unannounced overwrite of an unspent coin throws. */
  lemma AddFlagsEntry(v: CoinsView, o: OutPoint, coin: Coin, possibleOverwrite: bool)
    requires v.Cache? && !coin.IsSpent()
    ensures var r, known := Added(v, o, coin, possibleOverwrite), o in v.entries;
            && (coin.script.IsUnspendable() ==> r == Ok(v))
            && (r.Err? <==> !coin.script.IsUnspendable() && !possibleOverwrite && known && !v.entries[o].coin.IsSpent())
            && (r.Ok? && !coin.script.IsUnspendable() ==>
                  && r.value.Cache? && SameElsewhere(v.entries, r.value.entries, o) && o in r.value.entries
                  && var e := r.value.entries[o];
                     && e.coin == coin && e.isDirty
                     && (e.isFresh <==> (known && v.entries[o].isFresh) || (!possibleOverwrite && !(known && v.entries[o].isDirty))))
  {
  }

  lemma AddShows(v: CoinsView, o: OutPoint, e: Entry)
    requires v.Cache? && !e.coin.IsSpent()
    ensures Coins(v.(entries := v.entries[o := e])) == Coins(v)[o := e.coin]
  {
  }

  lemma AddValid(v: CoinsView, o: OutPoint, e: Entry)
    requires v.Cache? && Valid(v) && EntryOk(Coins(v.base), o, e)
    ensures Valid(v.(entries := v.entries[o := e]))
  {
  }

  /** Spending a coin. */
  function Spent(v: CoinsView, o: OutPoint): CoinsView
    requires v.Cache?
  {
    var f := Fetched(v, o);
    if o !in f.entries then f
    else if f.entries[o].isFresh then f.(entries := f.entries - {o})
    else f.(entries := f.entries[o := Entry(CLEARED, true, false)])
  }

  /** Spending a coin removes it from the view. */
  lemma SpendIsRemoval(v: CoinsView, o: OutPoint)
    requires Valid(v) && v.Cache?
    ensures Valid(Spent(v, o)) && Coins(Spent(v, o)) == Coins(v) - {o}
    ensures Spent(v, o).Cache? && Coins(Spent(v, o).base) == Coins(v.base) && Best(Spent(v, o)) == Best(v)
  {
    FetchKeepsView(v, o);
    var f := Fetched(v, o);
    if o in f.entries {
      assert EntryOk(Coins(f.base), o, f.entries[o]);
      RemoveShows(Coins(f.base), f.entries, o);
    }
  }

  /** A fresh entry is erased by spending, any other is kept as spent until it is written; nothing else changes. */
  lemma SpendErasesFresh(v: CoinsView, o: OutPoint)
    requires v.Cache?
    ensures var f, r := Fetched(v, o), Spent(v, o);
            && f.Cache? && r.Cache? && r.best == v.best && r.base == f.base && SameElsewhere(v.entries, r.entries, o)
            && (o in r.entries <==> o in f.entries && !f.entries[o].isFresh)
            && (o in r.entries ==> r.entries[o] == Entry(CLEARED, true, false))
  {
    FetchOnlyCopies(v, o);
  }

  /** Spending reports success exactly for unspent coins and for coins cached as spent. */
  lemma SpendReports(v: CoinsView, o: OutPoint)
    requires Valid(v) && v.Cache?
    ensures var f := Fetched(v, o);
            && f.Cache? && (o in f.entries <==> o in Coins(v) || o in v.entries)
            && (o in f.entries ==> f.entries[o].coin == if o in Coins(v) then Coins(v)[o] else CLEARED)
  {
    FetchKeepsView(v, o);
    var f := Fetched(v, o);
    if o in f.entries {
      assert EntryOk(Coins(f.base), o, f.entries[o]);
      assert o in Coins(f) <==> !f.entries[o].coin.IsSpent();
    }
  }

  /** So spending the same coin twice can succeed twice. */
  lemma SpendTwice()
    ensures var o, coin := OutPoint(1, 0), Coin(5, Script([], 0), false, 0);
            var v := Spent(Cache(map[], NULL_HASH, Database(map[o := coin], 1)), o);
            v.Cache? && o !in Coins(v) && o in Fetched(v, o).entries
  {
    var o, coin := OutPoint(1, 0), Coin(5, Script([], 0), false, 0);
    var v0 := Cache(map[], NULL_HASH, Database(map[o := coin], 1));
    FetchedStep(v0, o);
    assert Fetched(v0, o).entries[o] == Entry(coin, false, false);
  }

  lemma RemoveShows(below: map<OutPoint, Coin>, entries: map<OutPoint, Entry>, o: OutPoint)
    requires Accurate(below, entries) && o in entries
    ensures Accurate(below, entries - {o}) && Accurate(below, entries[o := Entry(CLEARED, true, false)])
    ensures Overlay(below, entries[o := Entry(CLEARED, true, false)]) == Overlay(below, entries) - {o}
    ensures o !in below ==> Overlay(below, entries - {o}) == Overlay(below, entries) - {o}
  {
    ClearShows(below, entries, o);
    if o !in below {
      EraseShows(below, entries, o);
    }
  }

  lemma ClearShows(below: map<OutPoint, Coin>, entries: map<OutPoint, Entry>, o: OutPoint)
    ensures Overlay(below, entries[o := Entry(CLEARED, true, false)]) == Overlay(below, entries) - {o}
  {
  }

  lemma EraseShows(below: map<OutPoint, Coin>, entries: map<OutPoint, Entry>, o: OutPoint)
    requires o !in below
    ensures Overlay(below, entries - {o}) == Overlay(below, entries) - {o}
  {
  }

  function Uncached(v: CoinsView, o: OutPoint): CoinsView
    requires v.Cache?
  {
    if o in v.entries && !v.entries[o].isDirty then v.(entries := v.entries - {o}) else v
  }

  lemma UncacheKeepsView(v: CoinsView, o: OutPoint)
    requires Valid(v) && v.Cache?
    ensures Valid(Uncached(v, o)) && Coins(Uncached(v, o)) == Coins(v)
  {
    assert o in v.entries ==> EntryOk(Coins(v.base), o, v.entries[o]);
  }

  /** Afterwards the cache has an entry exactly if it had a dirty one, which is kept; nothing else changes. */
  lemma UncacheDropsClean(v: CoinsView, o: OutPoint)
    requires v.Cache?
    ensures var r := Uncached(v, o);
            && r.Cache? && r.best == v.best && r.base == v.base && SameElsewhere(v.entries, r.entries, o)
            && (o in r.entries <==> o in v.entries && v.entries[o].isDirty)
            && (o in r.entries ==> r.entries[o] == v.entries[o])
  {
  }

  // ----- writing to the base

  /** A fresh entry meets an unspent coin in the parent cache. */
  predicate Misapplied(ours: map<OutPoint, Entry>, o: OutPoint, e: Entry) {
    e.isDirty && e.isFresh && o in ours && !ours[o].coin.IsSpent()
  }

  /** A parent cache's entry after a child's dirty entry was written to it. */
  function WriteEntry(ours: Option<Entry>, e: Entry): Option<Entry> {
    match ours
    case None => if e.isFresh && e.coin.IsSpent() then None else Some(Entry(e.coin, true, e.isFresh))
    case Some(u) => if u.isFresh && e.coin.IsSpent() then None else Some(Entry(e.coin, true, u.isFresh))
  }

  function EntryAt(entries: map<OutPoint, Entry>, o: OutPoint): Option<Entry> {
    if o in entries then Some(entries[o]) else None
  }

  /** A parent cache's entry after the child's whole batch was written to it. */
  function WrittenAt(ours: map<OutPoint, Entry>, theirs: map<OutPoint, Entry>, o: OutPoint): Option<Entry> {
    if o in theirs && theirs[o].isDirty then WriteEntry(EntryAt(ours, o), theirs[o]) else EntryAt(ours, o)
  }

  function WrittenEntries(ours: map<OutPoint, Entry>, theirs: map<OutPoint, Entry>): map<OutPoint, Entry> {
    map o | o in ours.Keys + theirs.Keys && WrittenAt(ours, theirs, o).Some? :: WrittenAt(ours, theirs, o).value
  }

  function WrittenCoins(ours: map<OutPoint, Coin>, theirs: map<OutPoint, Entry>): map<OutPoint, Coin> {
    map o | o in ours.Keys + theirs.Keys && (if o in theirs && theirs[o].isDirty then !theirs[o].coin.IsSpent() else o in ours) ::
      if o in theirs && theirs[o].isDirty then theirs[o].coin else ours[o]
  }

  /** A view after a batch of a child's entries was written to it. */
  function Written(v: CoinsView, theirs: map<OutPoint, Entry>, hash: Hash): Result<CoinsView> {
    match v
    case Database(coins, _) =>
      if hash == NULL_HASH then Err(NullBlock) else Ok(Database(WrittenCoins(coins, theirs), hash))
    case Cache(ours, _, base) =>
      if exists o | o in theirs :: Misapplied(ours, o, theirs[o]) then Err(FreshMisapplied)
      else Ok(Cache(WrittenEntries(ours, theirs), hash, base))
  }

  /** The entries left after a batch that keeps the cache: spent ones are erased, others are clean. */
  function Cleaned(entries: map<OutPoint, Entry>): map<OutPoint, Entry> {
    map o | o in entries && !((entries[o].isDirty || entries[o].isFresh) && entries[o].coin.IsSpent()) ::
      entries[o].(isDirty := false, isFresh := false)
  }

  function Flushed(v: CoinsView): Result<CoinsView>
    requires v.Cache?
  {
    match Written(v.base, v.entries, v.best)
    case Ok(base) => Ok(Cache(map[], v.best, base))
    case Err(e) => Err(e)
  }

  function Synced(v: CoinsView): Result<CoinsView>
    requires v.Cache?
  {
    match Written(v.base, v.entries, v.best)
    case Ok(base) => Ok(Cache(Cleaned(v.entries), v.best, base))
    case Err(e) => Err(e)
  }

  /** Writing an accurate cache's entries succeeds, unless the database is given a null block hash, and
      makes the base show what the cache showed. */
  lemma WriteMovesView(v: CoinsView, theirs: map<OutPoint, Entry>, hash: Hash)
    requires Valid(v) && Accurate(Coins(v), theirs)
    ensures var r := Written(v, theirs, hash);
            && (r.Ok? <==> v.Cache? || hash != NULL_HASH)
            && (r.Ok? ==> Valid(r.value) && Coins(r.value) == Overlay(Coins(v), theirs) && r.value.Cache? == v.Cache?)
            && (r.Ok? && v.Cache? ==> r.value.base == v.base)
  {
    if v.Cache? {
      forall o | o in theirs ensures !Misapplied(v.entries, o, theirs[o]) {
        assert EntryOk(Coins(v), o, theirs[o]);
      }
      WriteAccurate(Coins(v.base), v.entries, theirs);
      WriteShows(Coins(v.base), v.entries, theirs);
    } else {
      WriteDatabase(v.coins, theirs);
    }
  }

  /** Whether the entry of a written coin is fresh in the parent cache: if the parent's was, or the parent had none
      and the child's was. */
  predicate FreshInParent(ours: map<OutPoint, Entry>, o: OutPoint, e: Entry) {
    if o in ours then ours[o].isFresh else e.isFresh
  }

  /** Exactly the dirty entries are taken over: as dirty ones, or not at all if they are spent and fresh in the
      parent. The best block is taken over in any case. */
  lemma WriteTakesDirty(v: CoinsView, theirs: map<OutPoint, Entry>, hash: Hash, o: OutPoint)
    requires v.Cache? && Written(v, theirs, hash).Ok?
    ensures var r := Written(v, theirs, hash).value;
            && r.Cache? && r.best == hash && r.base == v.base
            && EntryAt(r.entries, o) ==
               if o !in theirs || !theirs[o].isDirty then EntryAt(v.entries, o)
               else if theirs[o].coin.IsSpent() && FreshInParent(v.entries, o, theirs[o]) then None
               else Some(Entry(theirs[o].coin, true, FreshInParent(v.entries, o, theirs[o])))
  {
  }

  lemma WriteDatabase(coins: map<OutPoint, Coin>, theirs: map<OutPoint, Entry>)
    requires (forall o | o in coins :: !coins[o].IsSpent()) && Accurate(coins, theirs)
    ensures WrittenCoins(coins, theirs) == Overlay(coins, theirs)
    ensures forall o | o in WrittenCoins(coins, theirs) :: !WrittenCoins(coins, theirs)[o].IsSpent()
  {
    forall o | o in theirs ensures EntryOk(coins, o, theirs[o]) {
    }
  }

  lemma WriteAccurate(below: map<OutPoint, Coin>, ours: map<OutPoint, Entry>, theirs: map<OutPoint, Entry>)
    requires Accurate(below, ours) && Accurate(Overlay(below, ours), theirs)
    ensures Accurate(below, WrittenEntries(ours, theirs))
  {
    forall o | o in WrittenEntries(ours, theirs) ensures EntryOk(below, o, WrittenEntries(ours, theirs)[o]) {
      assert o in theirs ==> EntryOk(Overlay(below, ours), o, theirs[o]);
      assert o in ours ==> EntryOk(below, o, ours[o]);
    }
  }

  lemma WriteShows(below: map<OutPoint, Coin>, ours: map<OutPoint, Entry>, theirs: map<OutPoint, Entry>)
    requires Accurate(below, ours) && Accurate(Overlay(below, ours), theirs)
    ensures Overlay(below, WrittenEntries(ours, theirs)) == Overlay(Overlay(below, ours), theirs)
  {
    var l, r := Overlay(below, WrittenEntries(ours, theirs)), Overlay(Overlay(below, ours), theirs);
    forall o ensures (o in l <==> o in r) && (o in l ==> l[o] == r[o]) {
      ShowsAt(below, ours, theirs, o);
    }
  }

  lemma ShowsAt(below: map<OutPoint, Coin>, ours: map<OutPoint, Entry>, theirs: map<OutPoint, Entry>, o: OutPoint)
    requires Accurate(below, ours) && Accurate(Overlay(below, ours), theirs)
    ensures var l, r := Overlay(below, WrittenEntries(ours, theirs)), Overlay(Overlay(below, ours), theirs);
            (o in l <==> o in r) && (o in l ==> l[o] == r[o])
  {
    assert o in theirs ==> EntryOk(Overlay(below, ours), o, theirs[o]);
    assert o in ours ==> EntryOk(below, o, ours[o]);
  }

  /** Flushing keeps the cache's view, empties it, and makes the base's view equal to it. */
  lemma FlushMovesView(v: CoinsView)
    requires Valid(v) && v.Cache?
    ensures Flushed(v).Ok? <==> v.base.Cache? || v.best != NULL_HASH
    ensures Flushed(v).Ok? ==>
              var r := Flushed(v).value;
              && Valid(r) && r.Cache? && r.entries == map[] && r.best == v.best
              && Coins(r) == Coins(v) && Coins(r.base) == Coins(v)
    ensures Flushed(v).Ok? && v.base.Cache? ==> Flushed(v).value.base.Cache? && Flushed(v).value.base.base == v.base.base
  {
    WriteMovesView(v.base, v.entries, v.best);
  }

  /** So does syncing, which keeps the unspent entries. */
  lemma SyncMovesView(v: CoinsView)
    requires Valid(v) && v.Cache?
    ensures Synced(v).Ok? <==> v.base.Cache? || v.best != NULL_HASH
    ensures Synced(v).Ok? ==>
              var r := Synced(v).value;
              && Valid(r) && r.Cache? && Coins(r) == Coins(v) && Coins(r.base) == Coins(v)
              && r.best == v.best
              && (forall o :: o in r.entries <==> o in v.entries && !v.entries[o].coin.IsSpent())
              && (forall o | o in r.entries :: r.entries[o] == Entry(v.entries[o].coin, false, false))
    ensures Synced(v).Ok? && v.base.Cache? ==> Synced(v).value.base.Cache? && Synced(v).value.base.base == v.base.base
  {
    WriteMovesView(v.base, v.entries, v.best);
    CleanAccurate(Coins(v.base), v.entries);
    forall o | o in v.entries ensures Legal(v.entries[o]) {
      assert EntryOk(Coins(v.base), o, v.entries[o]);
    }
  }

  lemma CleanAccurate(below: map<OutPoint, Coin>, entries: map<OutPoint, Entry>)
    requires Accurate(below, entries)
    ensures Accurate(Overlay(below, entries), Cleaned(entries))
    ensures Overlay(Overlay(below, entries), Cleaned(entries)) == Overlay(below, entries)
  {
    var above := Overlay(below, entries);
    forall o | o in Cleaned(entries) ensures EntryOk(above, o, Cleaned(entries)[o]) {
      assert EntryOk(below, o, entries[o]);
    }
    forall o | o in Cleaned(entries) ensures o in above && above[o] == Cleaned(entries)[o].coin {
      assert EntryOk(above, o, Cleaned(entries)[o]);
    }
  }

  // ----- the best block

  /** A view after its best block was asked for: every cache on the way keeps the answer. */
  function BestFetched(v: CoinsView): CoinsView {
    match v
    case Database(_, _) => v
    case Cache(entries, best, base) => if best != NULL_HASH then v else Cache(entries, Best(base), BestFetched(base))
  }

  lemma {:induction false} BestFetchKeepsView(v: CoinsView)
    requires Valid(v)
    ensures Valid(BestFetched(v)) && Coins(BestFetched(v)) == Coins(v) && Best(BestFetched(v)) == Best(v)
    ensures v.Cache? ==> var r := BestFetched(v); r.Cache? && r.best == Best(v) && r.entries == v.entries
    ensures v.Cache? && v.best != NULL_HASH ==> BestFetched(v) == v
  {
    if v.Cache? {
      BestFetchKeepsView(v.base);
    }
  }

  /** Writing back also hands over the best block exactly if the cache has one of its own, or the base has
      none of its own, or what is below the base agrees with it. */
  lemma FlushMovesBest(v: CoinsView)
    requires v.Cache? && Flushed(v).Ok?
    ensures Best(Flushed(v).value.base) == Best(v) <==>
              v.best != NULL_HASH || v.base.best == NULL_HASH || Best(v.base.base) == v.base.best
  {
  }

  /** A cache that never looked up its best block makes its base forget its own. */
  lemma FlushForgetsBest()
    ensures var v := Cache(map[], NULL_HASH, Cache(map[], 2, Database(map[], 1)));
            Valid(v) && Best(v) == 2 && Flushed(v).Ok? && Best(Flushed(v).value) == 1
  {
    var v := Cache(map[], NULL_HASH, Cache(map[], 2, Database(map[], 1)));
    assert Valid(v.base.base) && Coins(v.base.base) == map[];
    assert Written(v.base, v.entries, v.best).Ok?;
  }
}
