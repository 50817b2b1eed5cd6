/** Whole runs over a stack of coin caches refine runs over plain maps. */
module CoinsRuns {
  import opened CoinsViews

  /** What may happen at any cache of the stack: it does not change the view of that cache. */
  datatype Action = Look(o: OutPoint) | Uncache(o: OutPoint) | GetBest | Sync | Flush

  /** The stack changes at its top, or an action happens `level` caches below it. */
  datatype Op =
    | At(level: nat, action: Action)
    | Add(o: OutPoint, coin: Coin, possibleOverwrite: bool)
    | Spend(o: OutPoint)
    | SetBest(hash: Hash)
    | Push
    | Pop

  function Act(v: CoinsView, a: Action): Result<CoinsView>
    requires v.Cache?
  {
    match a
    case Look(o) => Ok(Fetched(v, o))
    case Uncache(o) => Ok(Uncached(v, o))
    case GetBest => Ok(BestFetched(v))
    case Sync => Synced(v)
    case Flush => Flushed(v)
  }

  function ActBelow(v: CoinsView, level: nat, a: Action): Result<CoinsView>
    requires level < Height(v)
  {
    if level == 0 then Act(v, a)
    else match ActBelow(v.base, level - 1, a)
      case Ok(base) => Ok(v.(base := base))
      case Err(e) => Err(e)
  }

  /** The number of caches. */
  function Height(v: CoinsView): nat {
    match v
    case Database(_, _) => 0
    case Cache(_, _, base) => Height(base) + 1
  }

  predicate HasTarget(height: nat, op: Op) {
    match op
    case At(level, _) => level < height
    case Push => true
    case _ => height > 0
  }

  predicate AddsUnspent(op: Op) {
    op.Add? ==> !op.coin.IsSpent()
  }

  function Step(v: CoinsView, op: Op): Result<CoinsView> {
    if !HasTarget(Height(v), op) then Err(NoSuchCache)
    else if !AddsUnspent(op) then Err(AddedSpent)
    else match op
    case At(level, a) => ActBelow(v, level, a)
    case Add(o, coin, possibleOverwrite) => Added(v, o, coin, possibleOverwrite)
    case Spend(o) => Ok(CoinsViews.Spent(v, o))
    case SetBest(hash) => Ok(v.(best := hash))
    case Push => Ok(Cache(map[], NULL_HASH, v))
    case Pop => Ok(v.base)
  }

  // ----- the plain maps

  type Map = map<OutPoint, Coin>

  /** What each level shows, the database first. */
  function Views(v: CoinsView): (r: seq<Map>)
    ensures |r| == Height(v) + 1
  {
    match v
    case Database(coins, _) => [coins]
    case Cache(_, _, base) => Views(base) + [Coins(v)]
  }

  /** An announced overwrite, or no overwrite. */
  predicate Allowed(maps: seq<Map>, op: Op)
    requires maps != []
  {
    && HasTarget(|maps| - 1, op) && AddsUnspent(op)
    && (op.Add? ==> op.coin.script.IsUnspendable() || op.possibleOverwrite || op.o !in maps[|maps| - 1])
  }

  /** Writing back copies a map over the one below it; nothing else moves between levels. */
  function MapStep(maps: seq<Map>, op: Op): (r: seq<Map>)
    requires maps != [] && Allowed(maps, op)
    ensures r != []
  {
    var top := |maps| - 1;
    match op
    case At(level, a) => if a.Sync? || a.Flush? then maps[top - level - 1 := maps[top - level]] else maps
    case Add(o, coin, _) => if coin.script.IsUnspendable() then maps else maps[top := maps[top][o := coin]]
    case Spend(o) => maps[top := maps[top] - {o}]
    case SetBest(_) => maps
    case Push => maps + [maps[top]]
    case Pop => maps[..top]
  }

  // ----- one step

  lemma {:induction false} ActRefines(v: CoinsView, level: nat, a: Action)
    requires Valid(v) && level < Height(v)
    ensures var r := ActBelow(v, level, a);
            && (r.Err? ==> r.error == NullBlock)
            && (r.Ok? ==> Valid(r.value) && r.value.Cache? && Coins(r.value) == Coins(v))
            && (r.Ok? ==> Views(r.value) == MapStep(Views(v), At(level, a)))
  {
    if level > 0 {
      ActRefines(v.base, level - 1, a);
      LowerStep(Views(v.base), Coins(v), level, a);
    } else {
      ActAtTop(v, a);
    }
  }

  lemma LowerStep(maps: seq<Map>, m: Map, level: nat, a: Action)
    requires 0 < level < |maps|
    ensures MapStep(maps + [m], At(level, a)) == MapStep(maps, At(level - 1, a)) + [m]
  {
  }

  lemma ActAtTop(v: CoinsView, a: Action)
    requires Valid(v) && v.Cache?
    ensures var r := Act(v, a);
            && (r.Err? ==> r.error == NullBlock)
            && (r.Ok? ==> Valid(r.value) && r.value.Cache? && Coins(r.value) == Coins(v))
            && (r.Ok? ==> Views(r.value) == MapStep(Views(v), At(0, a)))
  {
    match a
    case Look(o) =>
      FetchKeepsView(v, o);
      FetchKeepsViews(v, o);
    case Uncache(o) => UncacheKeepsView(v, o);
    case GetBest =>
      BestFetchKeepsView(v);
      BestFetchKeepsViews(v);
    case Sync =>
      SyncMovesView(v);
      WriteError(v);
      WrittenBelow(v, Synced(v));
    case Flush =>
      FlushMovesView(v);
      WriteError(v);
      WrittenBelow(v, Flushed(v));
  }

  lemma WriteError(v: CoinsView)
    requires Valid(v) && v.Cache?
    ensures Written(v.base, v.entries, v.best).Err? ==> Written(v.base, v.entries, v.best).error == NullBlock
  {
    WriteMovesView(v.base, v.entries, v.best);
  }

  lemma WrittenBelow(v: CoinsView, r: Result<CoinsView>)
    requires v.Cache? && (r.Ok? ==> r.value.Cache? && Coins(r.value) == Coins(v) && Coins(r.value.base) == Coins(v))
    requires r.Ok? ==> r.value.base.Cache? == v.base.Cache?
    requires r.Ok? && v.base.Cache? ==> r.value.base.base == v.base.base
    ensures r.Ok? ==> Views(r.value) == MapStep(Views(v), At(0, Sync))
  {
    if r.Ok? {
      assert Views(v) == Views(v.base) + [Coins(v)];
      assert Views(r.value) == Views(r.value.base) + [Coins(v)];
      if v.base.Cache? {
        assert Views(v.base) == Views(v.base.base) + [Coins(v.base)];
        assert Views(r.value.base) == Views(v.base.base) + [Coins(v)];
      }
    }
  }

  /** A lookup changes no view at any level. */
  lemma {:induction false} FetchKeepsViews(v: CoinsView, o: OutPoint)
    requires Valid(v)
    ensures Views(Fetched(v, o)) == Views(v)
  {
    FetchKeepsView(v, o);
    if v.Cache? {
      FetchKeepsViews(v.base, o);
    }
  }

  lemma {:induction false} BestFetchKeepsViews(v: CoinsView)
    requires Valid(v)
    ensures Views(BestFetched(v)) == Views(v)
  {
    BestFetchKeepsView(v);
    if v.Cache? {
      BestFetchKeepsViews(v.base);
    }
  }

  /** Every allowed step keeps the caches valid, does to the shown maps what it should, and throws nothing
      but for a null block handed to the database. */
  lemma StepRefines(v: CoinsView, op: Op)
    requires Valid(v) && Allowed(Views(v), op)
    ensures var r := Step(v, op);
            if r.Ok? then Valid(r.value) && Views(r.value) == MapStep(Views(v), op) else r.error == NullBlock
  {
    match op
    case At(level, a) => ActRefines(v, level, a);
    case Add(o, coin, possibleOverwrite) => AddIsUpdate(v, o, coin, possibleOverwrite);
    case Spend(o) =>
      SpendIsRemoval(v, o);
      SpendBelow(v, o);
    case SetBest(_) =>
    case Push =>
      assert Coins(Cache(map[], NULL_HASH, v)) == Coins(v);
      TopView(v);
    case Pop =>
  }

  lemma TopView(v: CoinsView)
    ensures Views(v)[|Views(v)| - 1] == Coins(v)
  {
  }

  lemma {:induction false} SpendBelow(v: CoinsView, o: OutPoint)
    requires Valid(v) && v.Cache?
    ensures Spent(v, o).Cache? && Views(Spent(v, o).base) == Views(v.base)
  {
    FetchKeepsViews(v, o);
    FetchKeepsView(v, o);
    var f := Fetched(v, o);
    assert Views(f.base) == Views(f)[..|Views(f)| - 1] && Views(v.base) == Views(v)[..|Views(v)| - 1];
    assert Views(f) == Views(f.base) + [Coins(f)] && Views(v) == Views(v.base) + [Coins(v)];
  }

  // ----- whole runs

  function Run(v: CoinsView, ops: seq<Op>): Result<CoinsView>
    decreases |ops|
  {
    if ops == [] then Ok(v)
    else match Step(v, ops[0])
      case Ok(w) => Run(w, ops[1..])
      case Err(e) => Err(e)
  }

  /** The plain maps after a run, if every step of it is allowed. */
  function MapRun(maps: seq<Map>, ops: seq<Op>): Option<seq<Map>>
    requires maps != []
    decreases |ops|
  {
    if ops == [] then Some(maps)
    else if !Allowed(maps, ops[0]) then None
    else MapRun(MapStep(maps, ops[0]), ops[1..])
  }

  /** Every run over any stack of caches shows at every level what plain maps would hold, and never throws
      for a misapplied flag or an overwritten coin. */
  lemma {:induction false} RunRefines(v: CoinsView, ops: seq<Op>)
    requires Valid(v) && MapRun(Views(v), ops).Some?
    ensures var r := Run(v, ops);
            if r.Ok? then Valid(r.value) && Views(r.value) == MapRun(Views(v), ops).value else r.error == NullBlock
    decreases |ops|
  {
    if ops != [] {
      StepRefines(v, ops[0]);
      if Step(v, ops[0]).Ok? {
        RunRefines(Step(v, ops[0]).value, ops[1..]);
      }
    }
  }
}
