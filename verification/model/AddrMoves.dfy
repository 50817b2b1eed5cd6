/** Deleting entries, and moving them between the tables of new and tried addresses. */
module AddrMoves {
  import opened AddrTables
  import opened AddrSteps

  /** An entry has its place in the random order. */
  predicate Deletable(t: Tables, id: Id) {
    && id in t.mapInfo && 0 <= t.mapInfo[id].randomPos < |t.random|
    && t.random[t.mapInfo[id].randomPos] == id && t.random[|t.random| - 1] in t.mapInfo
  }

  /** Delete an entry that is in no slot. */
  function Deleted(t: Tables, id: Id): Tables
    requires Deletable(t, id)
  {
    Dropped(Swapped(t, t.mapInfo[id].randomPos, |t.random| - 1), id)
  }

  lemma CanDelete(t: Tables, id: Id)
    requires IndexOk(t) && id in t.mapInfo
    ensures Deletable(t, id)
  {
    assert Indexed(t, id);
    assert RandomIndexed(t, |t.random| - 1);
  }

  /** The entry of an id is the same but for its position in the random order. */
  ghost predicate SameEntry(t: Tables, u: Tables, id: Id) {
    id in t.mapInfo && id in u.mapInfo && u.mapInfo[id] == t.mapInfo[id].(randomPos := u.mapInfo[id].randomPos)
  }

  /** All entries but one stay, in their slots and at their addresses. */
  ghost predicate OnlyGone(t: Tables, u: Tables, id: Id) {
    && u.mapInfo.Keys == t.mapInfo.Keys - {id} && u.tried == t.tried && u.new_ == t.new_
    && (forall k | k in u.mapInfo :: SameEntry(t, u, k))
    && (id in t.mapInfo ==> u.mapAddr == t.mapAddr - {t.mapInfo[id].addr})
  }

  lemma KeepsDeleted(p: Placement, t: Tables, loose: set<Id>, limbo: set<Id>, id: Id)
    requires Inv(p, t, loose, limbo) && id in loose
    ensures Deletable(t, id)
    ensures Inv(p, Deleted(t, id), loose - {id}, limbo) && Evolves(t, Deleted(t, id)) && OnlyGone(t, Deleted(t, id), id)
  {
    hide Inv, Dropped, Swapped, OnlyReordered, OnlyGone, Evolves;
    LooseCanDelete(p, t, loose, limbo, id);
    KeepsSwapped(p, t, loose, limbo, t.mapInfo[id].randomPos, |t.random| - 1);
    SwappedLast(t, t.mapInfo[id].randomPos);
    DeletedLast(p, t, Swapped(t, t.mapInfo[id].randomPos, |t.random| - 1), loose, limbo, id);
  }

  lemma DeletedLast(p: Placement, t: Tables, u: Tables, loose: set<Id>, limbo: set<Id>, id: Id)
    requires Inv(p, u, loose, limbo) && id in loose && u.random != [] && u.random[|u.random| - 1] == id
    requires OnlyReordered(t, u) && u.mapAddr == t.mapAddr && Evolves(t, u)
    ensures id in u.mapInfo
    ensures Inv(p, Dropped(u, id), loose - {id}, limbo) && Evolves(t, Dropped(u, id)) && OnlyGone(t, Dropped(u, id), id)
  {
    hide Inv, Dropped, OnlyReordered, OnlyGone, Evolves;
    KeepsDropped(p, u, loose, limbo, id);
    DroppedGone(t, u, id);
    EvolvesTransitive(t, u, Dropped(u, id));
  }

  lemma LooseCanDelete(p: Placement, t: Tables, loose: set<Id>, limbo: set<Id>, id: Id)
    requires Inv(p, t, loose, limbo) && id in loose
    ensures Deletable(t, id)
  {
    EntryAt(t, loose + limbo, id);
    CanDelete(t, id);
  }

  lemma SwappedLast(t: Tables, i: nat)
    requires i < |t.random| && t.random[i] in t.mapInfo && t.random[|t.random| - 1] in t.mapInfo
    ensures var u := Swapped(t, i, |t.random| - 1);
            && OnlyReordered(t, u) && u.mapAddr == t.mapAddr && u.random != [] && u.random[|u.random| - 1] == t.random[i]
  {
    SwappedReorders(t, i, |t.random| - 1);
  }

  lemma DroppedGone(t: Tables, u: Tables, id: Id)
    requires OnlyReordered(t, u) && u.mapAddr == t.mapAddr && id in u.mapInfo && u.random != []
    ensures OnlyGone(t, Dropped(u, id), id) && Dropped(u, id).tried == u.tried
  {
  }

  predicate Clearable(t: Tables, s: Slot) {
    s in t.new_ ==> Deletable(t, t.new_[s])
  }

  /** Clear a slot of the new table, deleting an entry that was only there. */
  function ClearedNew(t: Tables, s: Slot): Tables
    requires Clearable(t, s)
  {
    if s !in t.new_ then t
    else
      var id, u := t.new_[s], Unslotted(t, s);
      if u.mapInfo[id].refCount == 0 then Deleted(u, id) else u
  }

  lemma CanClear(p: Placement, t: Tables, loose: set<Id>, limbo: set<Id>, s: Slot)
    requires Inv(p, t, loose, limbo) && s in t.new_
    ensures Clearable(t, s) && t.mapInfo[t.new_[s]].refCount > 0 && t.new_[s] !in loose + limbo
  {
    SlotOwner(p, t, loose + limbo, s);
    CanDelete(t, t.new_[s]);
  }

  /** Clearing a slot changes no other slot, and no entry but the one that was there. */
  ghost predicate OnlyCleared(t: Tables, u: Tables, s: Slot) {
    && u.new_ == t.new_ - {s} && u.tried == t.tried && StatsKept(t, u)
    && (forall k | k in t.mapInfo && (s in t.new_ ==> k != t.new_[s]) :: SameEntry(t, u, k))
    && (forall a | a in u.mapAddr :: a in t.mapAddr && u.mapAddr[a] == t.mapAddr[a])
  }

  lemma KeepsClearedNew(p: Placement, t: Tables, loose: set<Id>, limbo: set<Id>, s: Slot)
    requires Inv(p, t, loose, limbo)
    ensures Clearable(t, s) && (s in t.new_ ==> t.new_[s] !in loose + limbo)
    ensures Inv(p, ClearedNew(t, s), loose, limbo) && Evolves(t, ClearedNew(t, s)) && OnlyCleared(t, ClearedNew(t, s), s)
  {
    hide Inv, Evolves, OnlyCleared, Deleted, OnlyGone;
    if s in t.new_ {
      CanClear(p, t, loose, limbo, s);
      var id, u := t.new_[s], Unslotted(t, s);
      KeepsUnslotted(p, t, loose, limbo, s);
      if u.mapInfo[id].refCount == 0 {
        KeepsDeleted(p, u, loose + {id}, limbo, id);
        assert loose + {id} - {id} == loose;
        EvolvesTransitive(t, u, Deleted(u, id));
        ClearedGone(t, s, Deleted(u, id));
      } else {
        ClearedOnly(t, s);
      }
    } else {
      NothingCleared(t, s);
    }
  }

  lemma NothingCleared(t: Tables, s: Slot)
    requires s !in t.new_
    ensures OnlyCleared(t, t, s) && Evolves(t, t)
  {
    assert t.new_ - {s} == t.new_;
  }

  lemma ClearedOnly(t: Tables, s: Slot)
    requires s in t.new_ && t.new_[s] in t.mapInfo
    ensures OnlyCleared(t, Unslotted(t, s), s)
  {
  }

  lemma ClearedGone(t: Tables, s: Slot, v: Tables)
    requires s in t.new_ && t.new_[s] in t.mapInfo && OnlyGone(Unslotted(t, s), v, t.new_[s])
    ensures OnlyCleared(t, v, s)
  {
    forall k | k in t.mapInfo && k != t.new_[s] ensures SameEntry(t, v, k) {
      assert SameEntry(Unslotted(t, s), v, k);
    }
    forall k | k in v.mapInfo ensures k in t.mapInfo && SameStats(t.mapInfo[k], v.mapInfo[k]) {
      assert SameEntry(Unslotted(t, s), v, k);
    }
  }

  // ----- from the new table to the tried table

  /** The slot of the new table that an entry gets by its own source. */
  function OwnSlot(p: Placement, info: AddrInfo): Slot {
    NewSlot(p, info.addr, NewBucket(p, info.addr, info.source))
  }

  predicate Evictable(p: Placement, t: Tables, k: Slot) {
    && k in t.tried && t.tried[k] in t.mapInfo
    && var s := OwnSlot(p, t.mapInfo[t.tried[k]]);
       Clearable(Untried(t, k), s) && t.tried[k] in ClearedNew(Untried(t, k), s).mapInfo
  }

  /** Move a tried entry back to the new table, clearing its slot there. */
  function Evicted(p: Placement, t: Tables, k: Slot): Tables
    requires Evictable(p, t, k)
  {
    var e := t.tried[k];
    var s := OwnSlot(p, t.mapInfo[e]);
    Slotted(Counted(ClearedNew(Untried(t, k), s), e), s, e)
  }

  /** What an eviction changes. */
  ghost predicate OnlyEvicted(p: Placement, t: Tables, u: Tables, k: Slot, keep: Id)
    requires k in t.tried && t.tried[k] in t.mapInfo
  {
    var e := t.tried[k];
    && u.tried == t.tried - {k} && SameEntry(t, u, keep)
    && e in u.mapInfo && !u.mapInfo[e].inTried && u.mapInfo[e].refCount == 1 && u.mapInfo[e].addr == t.mapInfo[e].addr
    && u.new_ == t.new_[OwnSlot(p, t.mapInfo[e]) := e] && StatsKept(t, u)
  }

  lemma KeepsEvicted(p: Placement, t: Tables, id: Id, k: Slot)
    requires Inv(p, t, {}, {id}) && k in t.tried
    ensures Evictable(p, t, k)
    ensures Inv(p, Evicted(p, t, k), {}, {id}) && IdsKept(t, Evicted(p, t, k)) && OnlyEvicted(p, t, Evicted(p, t, k), k, id)
  {
    hide Inv, IdsKept, OnlyCleared, ClearedNew, Evolves, OnlyEvicted, OwnSlot;
    LooseEntry(p, t, {}, {id}, id);
    KeepsUntried(p, t, {}, {id}, k);
    var e := t.tried[k];
    var s, u := OwnSlot(p, t.mapInfo[e]), Untried(t, k);
    KeepsClearedNew(p, u, {}, {id} + {e}, s);
    EvictedPlaced(p, t, u, ClearedNew(u, s), id, e, k, s);
  }

  lemma EvictedPlaced(p: Placement, t: Tables, u: Tables, c: Tables, id: Id, e: Id, k: Slot, s: Slot)
    requires k in t.tried && t.tried[k] == e && e in t.mapInfo && u == Untried(t, k) && e != id && s == OwnSlot(p, t.mapInfo[e])
    requires IdsKept(t, u) && Evolves(u, c) && OnlyCleared(u, c, s) && (s in u.new_ ==> u.new_[s] !in {id} + {e})
    requires Inv(p, c, {}, {id} + {e})
    ensures e in c.mapInfo
    ensures var v := Slotted(Counted(c, e), s, e);
            Inv(p, v, {}, {id}) && IdsKept(t, v) && (id in t.mapInfo ==> OnlyEvicted(p, t, v, k, id))
  {
    hide Inv, IdsKept, OnlyEvicted, OnlyCleared, Slotted, Counted, Untried;
    UntriedKeeps(t, k);
    ClearedKeeps(u, c, s, e);
    var none: set<Id> := {};
    KeepsCounted(p, c, none, {id} + {e}, e);
    var d := Counted(c, e);
    CountedKeeps(c, e);
    assert {id} + {e} - {e} == {id} && none + {e} == {e} && {e} - {e} == none;
    LooseEntry(p, d, {e}, {id}, e);
    KeepsSlotted(p, d, {e}, {id}, s, e);
    KeptThrough(t, u, c, d, Slotted(d, s, e));
    if id in t.mapInfo {
      ClearedKeeps(u, c, s, id);
      EvictedOnly(p, t, u, c, id, e, k, s);
    }
  }

  lemma ClearedKeeps(u: Tables, c: Tables, s: Slot, id: Id)
    requires OnlyCleared(u, c, s) && id in u.mapInfo && (s in u.new_ ==> u.new_[s] != id)
    ensures SameEntry(u, c, id) && s !in c.new_
  {
  }

  lemma UntriedKeeps(t: Tables, k: Slot)
    requires k in t.tried && t.tried[k] in t.mapInfo
    ensures var u := Untried(t, k);
            u.mapInfo.Keys == t.mapInfo.Keys && forall id | id in t.mapInfo :: u.mapInfo[id].addr == t.mapInfo[id].addr
  {
  }

  lemma CountedKeeps(c: Tables, e: Id)
    requires e in c.mapInfo
    ensures Counted(c, e).mapInfo == c.mapInfo && Counted(c, e).new_ == c.new_
  {
  }

  lemma KeptThrough(t: Tables, u: Tables, c: Tables, d: Tables, v: Tables)
    requires IdsKept(t, u) && Evolves(u, c) && Evolves(c, d) && Evolves(d, v)
    ensures IdsKept(t, v)
  {
    IdsKeptTransitive(t, u, c);
    IdsKeptTransitive(t, c, d);
    IdsKeptTransitive(t, d, v);
  }

  lemma LooseEntry(p: Placement, t: Tables, loose: set<Id>, limbo: set<Id>, id: Id)
    requires Inv(p, t, loose, limbo) && id in loose + limbo
    ensures id in t.mapInfo && !t.mapInfo[id].inTried && t.mapInfo[id].refCount == 0
  {
    EntryAt(t, loose + limbo, id);
  }

  lemma EvictedOnly(p: Placement, t: Tables, u: Tables, c: Tables, id: Id, e: Id, k: Slot, s: Slot)
    requires k in t.tried && t.tried[k] == e && e in t.mapInfo && u == Untried(t, k) && e != id && s == OwnSlot(p, t.mapInfo[e])
    requires OnlyCleared(u, c, s) && SameEntry(u, c, e) && c.mapInfo[e].refCount == 0
    requires id in t.mapInfo ==> SameEntry(u, c, id)
    ensures id in t.mapInfo ==> OnlyEvicted(p, t, Slotted(Counted(c, e), s, e), k, id)
  {
    assert t.new_[s := e] == (t.new_ - {s})[s := e];
  }

  // ----- leaving all slots of the new table

  /** Some slots of an entry were cleared, and counted off. */
  ghost predicate Emptying(t: Tables, u: Tables, id: Id) {
    && id in t.mapInfo && id in u.mapInfo
    && u == t.(mapInfo := t.mapInfo[id := t.mapInfo[id].(refCount := u.mapInfo[id].refCount)], new_ := u.new_)
    && (forall s | s in u.new_ :: s in t.new_ && u.new_[s] == t.new_[s])
    && (forall s | s in t.new_ && t.new_[s] != id :: s in u.new_)
  }

  lemma EmptyingStep(t: Tables, u: Tables, id: Id, s: Slot)
    requires Emptying(t, u, id) && s in u.new_ && u.new_[s] == id
    ensures Emptying(t, Unslotted(u, s), id)
  {
  }

  /** How many buckets after `start` a bucket is visited. */
  function Distance(start: nat, bucket: nat): nat
    requires start < NEW_BUCKET_COUNT && bucket < NEW_BUCKET_COUNT
  {
    if bucket >= start then bucket - start else bucket + NEW_BUCKET_COUNT - start
  }

  lemma VisitedBucket(start: nat, n: nat, bucket: nat)
    requires start < NEW_BUCKET_COUNT && n < NEW_BUCKET_COUNT && bucket < NEW_BUCKET_COUNT
    ensures Distance(start, bucket) == n <==> bucket == (start + n) % NEW_BUCKET_COUNT
  {
    if start + n >= NEW_BUCKET_COUNT {
      assert (start + n) % NEW_BUCKET_COUNT == start + n - NEW_BUCKET_COUNT;
    }
  }

  /** The slots of an entry that were not visited yet. */
  ghost predicate OnlyLater(u: Tables, id: Id, start: nat, n: nat)
    requires start < NEW_BUCKET_COUNT
  {
    forall s | s in u.new_ && u.new_[s] == id :: s.bucket < NEW_BUCKET_COUNT && Distance(start, s.bucket) >= n
  }

  lemma StartEmptying(p: Placement, t: Tables, id: Id, start: nat)
    requires Consistent(p, t) && id in t.mapInfo && start < NEW_BUCKET_COUNT
    ensures Emptying(t, t, id) && OnlyLater(t, id, start, 0)
  {
    assert t.mapInfo[id := t.mapInfo[id]] == t.mapInfo;
    forall s | s in t.new_ && t.new_[s] == id ensures s.bucket < NEW_BUCKET_COUNT {
      assert NewSlotOk(p, t, s);
    }
  }

  lemma VisitBucket(p: Placement, u: Tables, loose: set<Id>, limbo: set<Id>, id: Id, start: nat, n: nat)
    requires Inv(p, u, loose, limbo) && id in u.mapInfo && start < NEW_BUCKET_COUNT && n < NEW_BUCKET_COUNT && OnlyLater(u, id, start, n)
    ensures var s := NewSlot(p, u.mapInfo[id].addr, (start + n) % NEW_BUCKET_COUNT);
            && (!(s in u.new_ && u.new_[s] == id) ==> OnlyLater(u, id, start, n + 1))
            && (s in u.new_ && u.new_[s] == id ==> OnlyLater(Unslotted(u, s), id, start, n + 1))
  {
    var s := NewSlot(p, u.mapInfo[id].addr, (start + n) % NEW_BUCKET_COUNT);
    forall r | r in u.new_ && u.new_[r] == id && r != s ensures Distance(start, r.bucket) >= n + 1 {
      assert NewSlotOk(p, u, r);
      VisitedBucket(start, n, r.bucket);
    }
  }

  lemma AllVisited(p: Placement, u: Tables, loose: set<Id>, limbo: set<Id>, id: Id, start: nat)
    requires Inv(p, u, loose, limbo) && id in u.mapInfo && start < NEW_BUCKET_COUNT && OnlyLater(u, id, start, NEW_BUCKET_COUNT)
    ensures u.mapInfo[id].refCount == 0
  {
    assert RefsOk(u, id);
    assert SlotsOf(u.new_, id) == {};
  }

  // ----- becoming tried

  /** The evicted entry has its slot of the tried table taken by another one. */
  function MadeRoom(p: Placement, t: Tables, k: Slot): Tables
    requires k in t.tried ==> Evictable(p, t, k)
  {
    if k in t.tried then Evicted(p, t, k) else t
  }

  lemma KeepsMadeRoom(p: Placement, t: Tables, id: Id, k: Slot)
    requires Inv(p, t, {}, {id})
    ensures k in t.tried ==> Evictable(p, t, k)
    ensures Inv(p, MadeRoom(p, t, k), {}, {id}) && IdsKept(t, MadeRoom(p, t, k))
    ensures SameEntry(t, MadeRoom(p, t, k), id) && MadeRoom(p, t, k).tried == t.tried - {k}
    ensures k in t.tried ==> OnlyEvicted(p, t, MadeRoom(p, t, k), k, id)
    ensures k !in t.tried ==> MadeRoom(p, t, k) == t
    ensures StatsKept(t, MadeRoom(p, t, k))
  {
    hide Inv, IdsKept, Evicted, Evictable;
    LooseEntry(p, t, {}, {id}, id);
    if k in t.tried {
      KeepsEvicted(p, t, id, k);
    } else {
      assert t.tried - {k} == t.tried;
      SameIds(t);
    }
  }

  lemma SameIds(t: Tables)
    ensures IdsKept(t, t)
  {
  }
}
