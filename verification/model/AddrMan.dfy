/** The address manager as an object. */
module AddrMans {
  import opened AddrTables
  import opened AddrSteps
  import opened AddrMoves

  const TRIED_COLLISION_SIZE := 10
  const RETRIES := 3
  const MAX_FAILURES := 10
  const MINUTE := 60
  const HOUR := 60 * MINUTE
  const DAY := 24 * HOUR
  /** How recent a connection protects a tried address from being evicted. */
  const REPLACEMENT := 4 * HOUR
  /** How long a collision may stay unresolved. */
  const TEST_WINDOW := 40 * MINUTE

  /** The statistics are bad enough that the entry can be deleted. */
  predicate IsTerrible(info: AddrInfo, now: int) {
    if now - info.lastTry <= MINUTE then false
    else
      || info.time > now + 10 * MINUTE
      || now - info.time > 30 * DAY
      || (info.lastSuccess == 0 && info.attempts >= RETRIES)
      || (now - info.lastSuccess > 7 * DAY && info.attempts >= MAX_FAILURES)
  }

  /** In seconds: an entry is kept if it was tried within the last minute, or else if its time is plausible and at most
      30 days old, it was reached before or tried less than three times, and it was reached within a week or tried less
      than ten times since. */
  lemma KeptIf(info: AddrInfo, now: int)
    ensures !IsTerrible(info, now) <==>
              || info.lastTry >= now - 60
              || (&& now - 2592000 <= info.time <= now + 600
                  && (info.lastSuccess != 0 || info.attempts < 3)
                  && (info.lastSuccess >= now - 604800 || info.attempts < 10))
  {
  }

  /** A live id among the collisions has an occupied tried slot. */
  ghost predicate CollisionsOk(p: Placement, t: Tables, collisions: set<Id>) {
    && |collisions| <= TRIED_COLLISION_SIZE
    && forall c | c in collisions :: c < t.idCount && (c in t.mapInfo ==> TriedSlot(p, t.mapInfo[c].addr) in t.tried)
  }

  /** An address as announced. */
  datatype Address = Address(service: Service, time: int, services: set<nat>)

  function Max(a: int, b: int): int {
    if a < b then b else a
  }

  class AddrMan {
    const placement: Placement
    var idCount: Id
    var mapInfo: map<Id, AddrInfo>
    var mapAddr: map<Service, Id>
    var vRandom: seq<Id>
    var nTried: int
    var vvTried: map<Slot, Id>
    var nNew: int
    var vvNew: map<Slot, Id>
    var networkCounts: map<nat, Counts>
    var lastGood: int
    var triedCollisions: set<Id>

    function T(): Tables
      reads this
    {
      Tables(idCount, mapInfo, mapAddr, vRandom, nTried, vvTried, nNew, vvNew, networkCounts)
    }

    ghost predicate Valid()
      reads this
    {
      Consistent(placement, T()) && CollisionsOk(placement, T(), triedCollisions)
    }

    constructor (p: Placement)
      ensures placement == p && Valid() && T() == EMPTY_TABLES && triedCollisions == {}
    {
      placement := p;
      idCount, mapInfo, mapAddr, vRandom, nTried, vvTried, nNew, vvNew := 0, map[], map[], [], 0, map[], 0, map[];
      networkCounts, lastGood, triedCollisions := map[], 1, {};
      new;
      EmptyConsistent(p);
    }

    method Recount(network: nat, dNew: int, dTried: int)
      modifies `nNew, `nTried, `networkCounts
      ensures T() == Recounted(old(T()), network, dNew, dTried)
    {
      var c := CountOf(T(), network);
      nNew, nTried := nNew + dNew, nTried + dTried;
      networkCounts := networkCounts[network := Counts(c.inNew + dNew, c.inTried + dTried)];
    }

    /** Create an entry that is in no table yet. */
    method Create(addr: Service, source: Source, time: int, services: set<nat>) returns (id: Id)
      modifies `idCount, `mapInfo, `mapAddr, `vRandom, `nNew, `nTried, `networkCounts
      ensures id == old(idCount) && T() == Created(old(T()), addr, source, time, services)
    {
      id := idCount;
      idCount := idCount + 1;
      mapInfo := mapInfo[id := AddrInfo(addr, source, time, services, 0, 0, 0, 0, 0, false, |vRandom|)];
      mapAddr := mapAddr[addr := id];
      vRandom := vRandom + [id];
      Recount(addr.network, 1, 0);
    }

    method SwapRandom(i: nat, j: nat)
      requires i < |vRandom| && j < |vRandom| && vRandom[i] in mapInfo && vRandom[j] in mapInfo
      modifies `mapInfo, `vRandom
      ensures T() == Swapped(old(T()), i, j)
    {
      if i == j {
        return;
      }
      var a, b := vRandom[i], vRandom[j];
      mapInfo := mapInfo[a := mapInfo[a].(randomPos := j)];
      mapInfo := mapInfo[b := mapInfo[b].(randomPos := i)];
      vRandom := vRandom[i := b][j := a];
    }

    /** Delete an entry that is in no table. */
    method Delete(id: Id)
      requires Deletable(T(), id) && !mapInfo[id].inTried && mapInfo[id].refCount == 0
      modifies `mapInfo, `mapAddr, `vRandom, `nNew, `nTried, `networkCounts
      ensures T() == Deleted(old(T()), id)
    {
      hide Swapped;
      SwappedReorders(T(), mapInfo[id].randomPos, |vRandom| - 1);
      SwappedLast(T(), mapInfo[id].randomPos);
      var addr := mapInfo[id].addr;
      SwapRandom(mapInfo[id].randomPos, |vRandom| - 1);
      Recount(addr.network, -1, 0);
      vRandom := vRandom[..|vRandom| - 1];
      mapAddr := mapAddr - {addr};
      mapInfo := mapInfo - {id};
    }

    /** Clear a slot of the new table, deleting the entry there if that was its only slot. */
    method ClearNew(s: Slot)
      requires Clearable(T(), s) && (s in vvNew ==> mapInfo[vvNew[s]].refCount > 0 && !mapInfo[vvNew[s]].inTried)
      modifies `mapInfo, `mapAddr, `vRandom, `nNew, `nTried, `networkCounts, `vvNew
      ensures T() == ClearedNew(old(T()), s)
    {
      if s in vvNew {
        var id := vvNew[s];
        mapInfo := mapInfo[id := mapInfo[id].(refCount := mapInfo[id].refCount - 1)];
        vvNew := vvNew - {s};
        assert T() == Unslotted(old(T()), s);
        if mapInfo[id].refCount == 0 {
          Delete(id);
        }
      }
    }

    /** Take an entry out of all its slots of the new table. */
    method LeaveNew(id: Id)
      requires Consistent(placement, T()) && id in mapInfo && !mapInfo[id].inTried
      modifies `mapInfo, `vvNew
      ensures Inv(placement, T(), {id}, {}) && Emptying(old(T()), T(), id) && Evolves(old(T()), T())
    {
      hide Inv, Emptying, OnlyLater, Evolves;
      var start := NewBucket(placement, mapInfo[id].addr, mapInfo[id].source);
      StartEmptying(placement, T(), id, start);
      StartLeaving(placement, T(), id);
      var n := 0;
      while n < NEW_BUCKET_COUNT && mapInfo[id].refCount > 0
        invariant 0 <= n <= NEW_BUCKET_COUNT && id in mapInfo && mapInfo[id].refCount >= 0
        invariant mapInfo[id].addr == old(mapInfo[id].addr)
        invariant Leaving(placement, old(T()), T(), id, start, n)
      {
        var s := NewSlot(placement, mapInfo[id].addr, (start + n) % NEW_BUCKET_COUNT);
        LeavingStep(placement, old(T()), T(), id, start, n);
        if s in vvNew && vvNew[s] == id {
          vvNew := vvNew - {s};
          mapInfo := mapInfo[id := mapInfo[id].(refCount := mapInfo[id].refCount - 1)];
        }
        n := n + 1;
      }
      LeavingEnd(placement, old(T()), T(), id, start, n);
    }

    /** Move a tried entry back to the new table. */
    method Evict(k: Slot, ghost id: Id)
      requires Inv(placement, T(), {}, {id}) && k in vvTried
      modifies `mapInfo, `mapAddr, `vRandom, `nNew, `nTried, `networkCounts, `vvNew, `vvTried
      ensures Evictable(placement, old(T()), k) && T() == Evicted(placement, old(T()), k)
    {
      hide Inv, ClearedNew, IdsKept, OnlyEvicted, Slotted, Counted, Untried;
      KeepsEvicted(placement, T(), id, k);
      var e := vvTried[k];
      var info := mapInfo[e];
      LeaveTried(k);
      var s := NewSlot(placement, info.addr, NewBucket(placement, info.addr, info.source));
      EvictClears(placement, old(T()), T(), id, k, s);
      ClearNew(s);
      EnterNew(e, s);
    }

    method LeaveTried(k: Slot)
      requires k in vvTried && vvTried[k] in mapInfo
      modifies `mapInfo, `nNew, `nTried, `networkCounts, `vvTried
      ensures T() == Untried(old(T()), k)
    {
      var e := vvTried[k];
      mapInfo := mapInfo[e := mapInfo[e].(inTried := false)];
      vvTried := vvTried - {k};
      Recount(mapInfo[e].addr.network, 0, -1);
    }

    method EnterNew(e: Id, s: Slot)
      requires e in mapInfo && mapInfo[e].refCount == 0
      modifies `mapInfo, `nNew, `nTried, `networkCounts, `vvNew
      ensures T() == Slotted(Counted(old(T()), e), s, e)
    {
      mapInfo := mapInfo[e := mapInfo[e].(refCount := 1)];
      vvNew := vvNew[s := e];
      Recount(mapInfo[e].addr.network, 1, 0);
    }

    /** Move an entry from the new table to the tried table. */
    method MakeTried(id: Id)
      requires Consistent(placement, T()) && id in mapInfo && !mapInfo[id].inTried && mapInfo[id].lastSuccess != 0
      modifies `mapInfo, `mapAddr, `vRandom, `nNew, `nTried, `networkCounts, `vvNew, `vvTried
      ensures Consistent(placement, T()) && Evolves(old(T()), T()) && NowTried(placement, old(T()), T(), id)
    {
      hide Inv, Emptying, Evolves, Evicted, Evictable, NowTried;
      LeaveNew(id);
      ghost var u := T();
      StillThere(old(T()), u, id);
      var addr := mapInfo[id].addr;
      Recount(addr.network, -1, 0);
      assert T() == Uncounted(u, id);
      BecomesTried(placement, old(T()), u, id);
      var k := TriedSlot(placement, addr);
      if k in vvTried {
        Evict(k, id);
      }
      vvTried := vvTried[k := id];
      mapInfo := mapInfo[id := mapInfo[id].(inTried := true)];
      Recount(addr.network, 0, 1);
    }

    /** Put an entry into a slot of the new table, unless a better one is there; a loose entry that is not
        put anywhere is deleted. */
    method PlaceNew(id: Id, s: Slot, now: int) returns (insert: bool)
      requires id in mapInfo && Inv(placement, T(), LooseIf(T(), id), {}) && Placeable(placement, T(), id, s)
      modifies `mapInfo, `mapAddr, `vRandom, `nNew, `nTried, `networkCounts, `vvNew
      ensures Consistent(placement, T()) && Evolves(old(T()), T())
      ensures insert <==> SlotYields(old(T()), s, id, old(mapInfo[id].refCount) == 0, now)
      ensures insert ==> Inserted(old(T()), T(), id, s)
      ensures !insert ==> (if old(mapInfo[id].refCount) == 0 then OnlyGone(old(T()), T(), id) else T() == old(T()))
    {
      hide Inv, Evolves, Inserted, OnlyGone, ClearedNew, Deleted, Slotted;
      SameTables(T());
      insert := s !in vvNew;
      if s in vvNew && vvNew[s] == id {
        SlotHolder(placement, T(), id, s);
        return;
      }
      if !insert {
        SlotOwnerIn(placement, T(), LooseIf(T(), id), {}, s);
        var existing := mapInfo[vvNew[s]];
        insert := IsTerrible(existing, now) || (existing.refCount > 1 && mapInfo[id].refCount == 0);
      }
      if insert {
        Replaces(placement, T(), id, s);
        ClearNew(s);
        EnterSlot(id, s);
      } else if mapInfo[id].refCount == 0 {
        LooseEntry(placement, T(), {id}, {}, id);
        KeepsDeleted(placement, T(), {id}, {}, id);
        Delete(id);
        NoLoose(id);
      }
    }

    method EnterSlot(id: Id, s: Slot)
      requires id in mapInfo
      modifies `mapInfo, `vvNew
      ensures T() == Slotted(old(T()), s, id)
    {
      mapInfo := mapInfo[id := mapInfo[id].(refCount := mapInfo[id].refCount + 1)];
      vvNew := vvNew[s := id];
    }

    /** Record an announced address; `lucky` says, by reference count, whether a known one gets another slot. */
    method AddSingle(addr: Address, source: Source, timePenalty: int, now: int, lucky: int -> bool) returns (inserted: bool)
      requires Valid()
      modifies `idCount, `mapInfo, `mapAddr, `vRandom, `nNew, `nTried, `networkCounts, `vvNew
      ensures Valid() && Evolves(old(T()), T()) && vvTried == old(vvTried)
      ensures !addr.service.isRoutable ==> !inserted && T() == old(T())
      ensures addr.service.isRoutable ==>
                var penalty := if addr.service.ip == source then 0 else timePenalty;
                var s := NewSlot(placement, addr.service, NewBucket(placement, addr.service, source));
                if addr.service in old(mapAddr) then AddedKnown(old(T()), T(), addr, penalty, s, now, lucky, inserted)
                else AddedFirst(old(T()), T(), addr, source, penalty, s, now, inserted)
    {
      hide Inv, Evolves, Inserted, OnlyGone, CollisionsOk, AddedKnown, AddedFirst;
      SameTables(T());
      if !addr.service.isRoutable {
        return false;
      }
      var penalty := if addr.service.ip == source then 0 else timePenalty;
      var s := NewSlot(placement, addr.service, NewBucket(placement, addr.service, source));
      if addr.service in mapAddr {
        var go, id := Refresh(addr, penalty, now, lucky);
        ghost var u := T();
        if !go {
          CollisionsKept(placement, old(T()), T(), triedCollisions);
          NotAgain(old(T()), u, addr, penalty, s, now, lucky);
          return false;
        }
        inserted := PlaceAgain(id, s, now, old(T()));
        AddedAgain(placement, old(T()), u, T(), addr, penalty, s, now, lucky, inserted);
      } else {
        inserted := PlaceFirst(addr, source, penalty, s, now);
      }
      CollisionsKept(placement, old(T()), T(), triedCollisions);
    }

    /** Update what is known of an address, and decide whether to give it another slot. */
    method Refresh(addr: Address, penalty: int, now: int, lucky: int -> bool) returns (go: bool, id: Id)
      requires Consistent(placement, T()) && addr.service in mapAddr
      modifies `mapInfo
      ensures Consistent(placement, T()) && Evolves(old(T()), T()) && mapInfo.Keys == old(mapInfo.Keys)
      ensures id == mapAddr[addr.service] && id in mapInfo && mapInfo[id].addr == addr.service
      ensures id in old(mapInfo) && T() == SetInfo(old(T()), id, Refreshed(old(mapInfo)[id], addr, penalty, now))
      ensures (go <==> WantsSlot(mapInfo[id], addr, lucky)) && (go ==> 0 < mapInfo[id].refCount < NEW_BUCKETS_PER_ADDRESS)
    {
      hide Inv, Evolves;
      id := mapAddr[addr.service];
      Known(placement, T(), addr.service);
      var info := mapInfo[id];
      var interval := if now - addr.time < DAY then HOUR else DAY;
      if info.time < addr.time - interval - penalty {
        info := info.(time := Max(0, addr.time - penalty));
      }
      info := info.(services := info.services + addr.services);
      KeepsInfo(placement, T(), {}, {}, id, info);
      mapInfo := mapInfo[id := info];
      if addr.time <= info.time {
        go := false;
      } else if info.inTried {
        go := false;
      } else if info.refCount == NEW_BUCKETS_PER_ADDRESS {
        go := false;
      } else {
        go := lucky(info.refCount);
      }
    }

    method PlaceAgain(id: Id, s: Slot, now: int, ghost before: Tables) returns (inserted: bool)
      requires Consistent(placement, T()) && id in mapInfo && mapInfo[id].refCount > 0 && Placeable(placement, T(), id, s)
      requires Evolves(before, T())
      modifies `mapInfo, `mapAddr, `vRandom, `nNew, `nTried, `networkCounts, `vvNew
      ensures Consistent(placement, T()) && Evolves(before, T()) && vvTried == old(vvTried)
      ensures inserted <==> SlotYields(old(T()), s, id, false, now)
      ensures if inserted then Inserted(old(T()), T(), id, s) else T() == old(T())
    {
      hide Inv, Evolves, Inserted, OnlyGone;
      inserted := PlaceNew(id, s, now);
      EvolvesTransitive(before, old(T()), T());
      if inserted {
        InsertedThere(placement, old(T()), T(), id, s);
      }
    }

    /** Create an entry and give it its first slot, or none. */
    method PlaceFirst(addr: Address, source: Source, penalty: int, s: Slot, now: int) returns (inserted: bool)
      requires Consistent(placement, T()) && addr.service !in mapAddr
      requires s.bucket < NEW_BUCKET_COUNT && s == NewSlot(placement, addr.service, s.bucket)
      modifies `idCount, `mapInfo, `mapAddr, `vRandom, `nNew, `nTried, `networkCounts, `vvNew
      ensures Consistent(placement, T()) && Evolves(old(T()), T()) && vvTried == old(vvTried)
      ensures AddedFirst(old(T()), T(), addr, source, penalty, s, now, inserted)
    {
      hide Inv, Evolves, Inserted, OnlyGone, AddedFirst, SlotYields, StatsKept;
      KeepsCreated(placement, T(), addr.service, source, addr.time, addr.services);
      NoSuchId(placement, T());
      var id := Create(addr.service, source, addr.time, addr.services);
      ghost var u := T();
      var info := mapInfo[id].(time := Max(0, mapInfo[id].time - penalty));
      KeepsInfo(placement, T(), {id}, {}, id, info);
      mapInfo := mapInfo[id := info];
      EvolvesTransitive(old(T()), u, T());
      ghost var v := T();
      inserted := PlaceNew(id, s, now);
      EvolvesTransitive(old(T()), v, T());
      if inserted {
        InsertedThere(placement, v, T(), id, s);
        PlacedFirst(placement, old(T()), v, T(), addr, source, penalty, s, now);
      } else {
        NotCreated(placement, old(T()), v, T(), addr, source, penalty, s, now);
      }
    }

    /** Record a successful connection, moving the address to the tried table unless that would evict
        another one that is first to be tested. */
    method Good(addr: Service, testBeforeEvict: bool, time: int) returns (moved: bool)
      requires Valid() && time > 0
      modifies `lastGood, `triedCollisions, `mapInfo, `mapAddr, `vRandom, `nNew, `nTried, `networkCounts, `vvNew, `vvTried
      ensures Valid() && Evolves(old(T()), T())
      ensures lastGood == time && (moved <==> MovesToTried(placement, old(T()), addr, testBeforeEvict))
      ensures if moved then NowTried(placement, Succeeded(old(T()), addr, time), T(), old(mapAddr)[addr])
              else T() == Succeeded(old(T()), addr, time)
      ensures triedCollisions ==
              if Collides(placement, old(T()), addr, testBeforeEvict) && |old(triedCollisions)| < TRIED_COLLISION_SIZE
              then old(triedCollisions) + {old(mapAddr)[addr]} else old(triedCollisions)
    {
      hide Inv, Evolves, NowTried, CollisionsOk, Succeeded;
      SameTables(T());
      SucceededFacts(T(), addr, time);
      lastGood := time;
      if addr !in mapAddr {
        return false;
      }
      var id := Succeed(addr, time);
      ghost var u := T();
      CollisionsKept(placement, old(T()), u, triedCollisions);
      if mapInfo[id].inTried {
        return false;
      }
      if testBeforeEvict && TriedSlot(placement, addr) in vvTried {
        RecordCollision(id);
        return false;
      }
      MakeTried(id);
      EvolvesTransitive(old(T()), u, T());
      CollisionsKept(placement, old(T()), T(), triedCollisions);
      moved := true;
    }

    method Succeed(addr: Service, time: int) returns (id: Id)
      requires Consistent(placement, T()) && addr in mapAddr && time > 0
      modifies `mapInfo
      ensures Consistent(placement, T()) && Evolves(old(T()), T()) && T() == Succeeded(old(T()), addr, time)
      ensures id in old(mapInfo) && id == mapAddr[addr] && id in mapInfo && mapInfo[id].addr == addr && mapInfo[id].lastSuccess == time
      ensures !mapInfo[id].inTried ==> mapInfo[id].refCount > 0
    {
      hide Inv, Evolves;
      id := mapAddr[addr];
      Known(placement, T(), addr);
      var info := mapInfo[id].(lastSuccess := time, lastTry := time, attempts := 0);
      KeepsInfo(placement, T(), {}, {}, id, info);
      mapInfo := mapInfo[id := info];
    }

    method RecordCollision(id: Id)
      requires Valid() && id in mapInfo && TriedSlot(placement, mapInfo[id].addr) in vvTried
      modifies `triedCollisions
      ensures Valid() && triedCollisions == if |old(triedCollisions)| < TRIED_COLLISION_SIZE then old(triedCollisions) + {id} else old(triedCollisions)
    {
      hide Inv, CollisionsOk;
      if |triedCollisions| < TRIED_COLLISION_SIZE {
        CollisionAdded(placement, T(), triedCollisions, id);
        triedCollisions := triedCollisions + {id};
      }
    }

    /** Change statistics of an entry. */
    method UpdateStats(id: Id, info: AddrInfo)
      requires Valid() && id in mapInfo
      requires var i := mapInfo[id];
               && info.addr == i.addr && info.source == i.source && info.inTried == i.inTried
               && info.refCount == i.refCount && info.randomPos == i.randomPos && info.lastSuccess == i.lastSuccess
      requires info.lastTry >= 0
      modifies `mapInfo
      ensures Valid() && Evolves(old(T()), T()) && T() == SetInfo(old(T()), id, info)
    {
      hide Inv, Evolves, CollisionsOk;
      Times(placement, T(), id);
      KeepsInfo(placement, T(), {}, {}, id, info);
      mapInfo := mapInfo[id := info];
      CollisionsKept(placement, old(T()), T(), triedCollisions);
    }

    method Attempt(addr: Service, countFailure: bool, time: int)
      requires Valid() && time >= 0
      modifies `mapInfo
      ensures Valid() && Evolves(old(T()), T())
      ensures if addr in mapAddr && mapAddr[addr] in old(mapInfo)
              then mapInfo == old(mapInfo)[mapAddr[addr] := Attempted(old(mapInfo)[mapAddr[addr]], countFailure, lastGood, time)]
              else mapInfo == old(mapInfo)
    {
      hide Inv, Evolves, CollisionsOk;
      SameTables(T());
      if addr in mapAddr {
        var id := mapAddr[addr];
        Known(placement, T(), addr);
        var info := mapInfo[id].(lastTry := time);
        if countFailure && info.lastCountAttempt < lastGood {
          info := info.(lastCountAttempt := time, attempts := info.attempts + 1);
        }
        UpdateStats(id, info);
      }
    }

    method Connected(addr: Service, time: int)
      requires Valid()
      modifies `mapInfo
      ensures Valid() && Evolves(old(T()), T())
      ensures if addr in mapAddr && mapAddr[addr] in old(mapInfo)
              then mapInfo == old(mapInfo)[mapAddr[addr] := Seen(old(mapInfo)[mapAddr[addr]], time)]
              else mapInfo == old(mapInfo)
    {
      hide Inv, Evolves, CollisionsOk;
      SameTables(T());
      if addr in mapAddr {
        var id := mapAddr[addr];
        Known(placement, T(), addr);
        var info := mapInfo[id];
        if time - info.time > 20 * MINUTE {
          info := info.(time := time);
        }
        UpdateStats(id, info);
      }
    }

    method SetServices(addr: Service, services: set<nat>)
      requires Valid()
      modifies `mapInfo
      ensures Valid() && Evolves(old(T()), T())
      ensures if addr in mapAddr && mapAddr[addr] in old(mapInfo)
              then mapInfo == old(mapInfo)[mapAddr[addr] := old(mapInfo)[mapAddr[addr]].(services := services)]
              else mapInfo == old(mapInfo)
    {
      hide Inv, Evolves, CollisionsOk;
      SameTables(T());
      if addr in mapAddr {
        var id := mapAddr[addr];
        Known(placement, T(), addr);
        UpdateStats(id, mapInfo[id].(services := services));
      }
    }

    /** Resolve all collisions that can be resolved. */
    method ResolveCollisions(now: int)
      requires Valid() && now > 0
      modifies `lastGood, `triedCollisions, `mapInfo, `mapAddr, `vRandom, `nNew, `nTried, `networkCounts, `vvNew, `vvTried
      ensures Valid() && Evolves(old(T()), T()) && triedCollisions <= old(triedCollisions)
      ensures forall c | c in old(triedCollisions) :: Visited(placement, old(T()), T(), c, now, c in triedCollisions)
    {
      hide Inv, Evolves, CollisionsOk, Visited, Resolution;
      SameTables(T());
      var todo := triedCollisions;
      while todo != {}
        invariant Valid() && Evolves(old(T()), T()) && todo <= triedCollisions <= old(triedCollisions)
        invariant forall c | c in old(triedCollisions) && c !in todo :: Visited(placement, old(T()), T(), c, now, c in triedCollisions)
        decreases |todo|
      {
        var id :| id in todo;
        ghost var u := T();
        var erase := Resolve(id, now);
        forall c | c in old(triedCollisions) && c !in todo ensures Visited(placement, old(T()), T(), c, now, c in triedCollisions) {
          VisitedBefore(placement, old(T()), u, T(), c, now, c in triedCollisions);
        }
        VisitedNow(placement, old(T()), u, T(), id, now);
        EvolvesTransitive(old(T()), u, T());
        if erase {
          FewerCollisions(placement, T(), triedCollisions, id);
          triedCollisions := triedCollisions - {id};
        }
        todo := todo - {id};
      }
    }

    /** Resolve one collision if possible: the tried slot it wants is always taken. */
    method Resolve(id: Id, now: int) returns (erase: bool)
      requires Valid() && id in triedCollisions && now > 0
      modifies `lastGood, `triedCollisions, `mapInfo, `mapAddr, `vRandom, `nNew, `nTried, `networkCounts, `vvNew, `vvTried
      ensures Valid() && Evolves(old(T()), T()) && triedCollisions == old(triedCollisions)
      ensures erase <==> Resolution(placement, old(T()), id, now) != Wait
      ensures Resolution(placement, old(T()), id, now) == Replace ==>
                var u := Succeeded(old(T()), old(mapInfo)[id].addr, now);
                lastGood == now && if old(mapInfo)[id].inTried then T() == u else NowTried(placement, u, T(), id)
      ensures Resolution(placement, old(T()), id, now) != Replace ==> T() == old(T()) && lastGood == old(lastGood)
    {
      hide Inv, Evolves, CollisionsOk, NowTried, Succeeded;
      SameTables(T());
      erase := false;
      if id !in mapInfo {
        return true;
      }
      var infoNew := mapInfo[id];
      CollisionTaken(placement, T(), triedCollisions, id);
      var k := TriedSlot(placement, infoNew.addr);
      if !infoNew.addr.isValid {
        erase := true;
      } else if k in vvTried {
        var infoOld := mapInfo[vvTried[k]];
        if now - infoOld.lastSuccess < REPLACEMENT {
          erase := true;
        } else if now - infoOld.lastTry < REPLACEMENT {
          if now - infoOld.lastTry > MINUTE {
            var _ := Good(infoNew.addr, false, now);
            erase := true;
          }
        } else if now - infoNew.lastSuccess > TEST_WINDOW {
          var _ := Good(infoNew.addr, false, now);
          erase := true;
        }
      } else {
        assert false;
      }
    }

    /** The tried address that a collision waits for, and when it was last tried. */
    method SelectTriedCollision(choice: Id) returns (found: bool, old_: AddrInfo)
      requires Valid() && choice in triedCollisions
      modifies `triedCollisions
      ensures Valid() && triedCollisions == if found then old(triedCollisions) else old(triedCollisions) - {choice}
      ensures found <==> choice in mapInfo
      ensures found ==> var k := TriedSlot(placement, mapInfo[choice].addr);
                k in vvTried && vvTried[k] in mapInfo && old_ == mapInfo[vvTried[k]] && old_.inTried
    {
      hide Inv, CollisionsOk;
      found := choice in mapInfo;
      old_ := NO_INFO;
      if !found {
        FewerCollisions(placement, T(), triedCollisions, choice);
        triedCollisions := triedCollisions - {choice};
      } else {
        CollisionTaken(placement, T(), triedCollisions, choice);
        old_ := mapInfo[vvTried[TriedSlot(placement, mapInfo[choice].addr)]];
      }
    }

    /** Return random addresses, at most a number and a percentage of all, leaving out other networks and, if
        filtered, terrible ones; `ids` are their ids.  The random order was shuffled from its front on for `visited`
        entries. */
    method GetAddr(maxAddresses: nat, maxPct: nat, network: Option<nat>, filtered: bool, now: int, rand: nat -> nat)
      returns (addresses: seq<Service>, ghost ids: seq<Id>, ghost visited: nat)
      requires Valid()
      modifies `mapInfo, `vRandom
      ensures Valid() && Evolves(old(T()), T()) && OnlyReordered(old(T()), T()) && mapAddr == old(mapAddr)
      ensures visited <= |vRandom| && vRandom == Shuffled(old(vRandom), visited, rand) && forall id | id in ids :: id in vRandom[..visited]
      ensures |addresses| == |ids| <= Limit(|vRandom|, maxAddresses, maxPct)
      ensures Distinct(ids) && forall i | 0 <= i < |ids| ::
                ids[i] in mapInfo && addresses[i] == mapInfo[ids[i]].addr && Qualifies(mapInfo[ids[i]], network, filtered, now)
      ensures |ids| < Limit(|vRandom|, maxAddresses, maxPct) ==>
                forall id | id in mapInfo && Qualifies(mapInfo[id], network, filtered, now) :: id in ids
    {
      hide Inv, Evolves, CollisionsOk, OnlyReordered, Chosen, Qualifies, Limit, Swapped, Shuffled, Choosing;
      var nNodes := Limit(|vRandom|, maxAddresses, maxPct);
      addresses, ids := [], [];
      StartChoosing(placement, T(), network, filtered, now, rand);
      var n := 0;
      while n < |vRandom| && |addresses| < nNodes
        invariant 0 <= n <= |vRandom| == |old(vRandom)| && |addresses| <= nNodes
        invariant Choosing(placement, old(T()), T(), n, ids, addresses, network, filtered, now, rand)
      {
        var pos := n + rand(n) % (|vRandom| - n);
        ChoosingNext(placement, old(T()), T(), n, ids, addresses, network, filtered, now, rand);
        SwapRandom(n, pos);
        var info := mapInfo[vRandom[n]];
        if Qualifies(info, network, filtered, now) {
          addresses := addresses + [info.addr];
          ids := ids + [vRandom[n]];
        }
        n := n + 1;
      }
      ChoosingFacts(placement, old(T()), T(), n, ids, addresses, network, filtered, now, rand);
      CollisionsKept(placement, old(T()), T(), triedCollisions);
      ChosenAll(placement, T(), n, ids, addresses, network, filtered, now);
      visited := n;
    }
  }

  // ----- choosing random addresses

  datatype Option<X> = None | Some(value: X)

  function Min(a: nat, b: nat): nat {
    if a < b then a else b
  }

  /** At most how many addresses to return. */
  function Limit(size: nat, maxAddresses: nat, maxPct: nat): nat {
    var nodes: nat := if maxPct != 0 then Min(maxPct, 100) * size / 100 else size;
    if maxAddresses != 0 then Min(nodes, maxAddresses) else nodes
  }

  /** It is the largest number that meets the limits; a limit of zero is none. */
  lemma LimitIsLargest(size: nat, maxAddresses: nat, maxPct: nat, k: nat)
    ensures k <= Limit(size, maxAddresses, maxPct) <==>
              && k <= size && (maxAddresses != 0 ==> k <= maxAddresses)
              && (maxPct != 0 ==> 100 * k <= maxPct * size)
  {
    Hundredths(k, Min(maxPct, 100) * size);
    if maxPct >= 100 {
      PctMonotone(maxPct, size);
    }
  }

  lemma Hundredths(k: nat, x: nat)
    ensures k <= x / 100 <==> 100 * k <= x
  {
  }

  lemma PctMonotone(pct: nat, size: nat)
    requires pct >= 100
    ensures pct * size >= 100 * size
  {
  }

  /** An address qualifies unless another network is asked for, or it is terrible and those are filtered out. */
  lemma QualifiesUnless(info: AddrInfo, network: Option<nat>, filtered: bool, now: int)
    ensures Qualifies(info, network, filtered, now) <==> network in [None, Some(info.addr.network)] && (IsTerrible(info, now) ==> !filtered)
  {
  }

  /** The first `n` steps of shuffling: each place gets one of the entries from there on. */
  ghost function Shuffled(s: seq<Id>, n: nat, rand: nat -> nat): (r: seq<Id>)
    requires n <= |s|
    ensures |r| == |s|
  {
    if n == 0 then s
    else
      var t, i, j := Shuffled(s, n - 1, rand), n - 1, n - 1 + rand(n - 1) % (|s| - (n - 1));
      t[i := t[j]][j := t[i]]
  }

  lemma ShuffledNext(t: Tables, s: seq<Id>, n: nat, rand: nat -> nat)
    requires n < |t.random| == |s| && t.random == Shuffled(s, n, rand)
    requires var pos := n + rand(n) % (|t.random| - n); t.random[n] in t.mapInfo && t.random[pos] in t.mapInfo
    ensures Swapped(t, n, n + rand(n) % (|t.random| - n)).random == Shuffled(s, n + 1, rand)
  {
    var pos := n + rand(n) % (|t.random| - n);
    assert t.random[n := t.random[n]] == t.random;
  }

  predicate Qualifies(info: AddrInfo, network: Option<nat>, filtered: bool, now: int) {
    && (network.Some? ==> info.addr.network == network.value)
    && !(filtered && IsTerrible(info, now))
  }

  ghost predicate Distinct(ids: seq<Id>) {
    forall i, j | 0 <= i < j < |ids| :: ids[i] != ids[j]
  }

  ghost predicate ChosenAt(t: Tables, id: Id, addr: Service, network: Option<nat>, filtered: bool, now: int) {
    id in t.mapInfo && addr == t.mapInfo[id].addr && Qualifies(t.mapInfo[id], network, filtered, now)
  }

  /** Exactly the qualified entries among the first `n` in random order were chosen, once each. */
  ghost predicate Chosen(t: Tables, n: nat, ids: seq<Id>, addresses: seq<Service>, network: Option<nat>, filtered: bool, now: int) {
    && n <= |t.random| && |ids| == |addresses| && Distinct(ids)
    && (forall i | 0 <= i < |ids| :: ids[i] in t.random[..n] && ChosenAt(t, ids[i], addresses[i], network, filtered, now))
    && (forall i | 0 <= i < n :: t.random[i] in t.mapInfo && Qualifies(t.mapInfo[t.random[i]], network, filtered, now) ==> t.random[i] in ids)
  }

  /** The state of the loop: `t` is what shuffling made of `t0`. */
  ghost predicate Choosing(p: Placement, t0: Tables, t: Tables, n: nat, ids: seq<Id>, addresses: seq<Service>,
                           network: Option<nat>, filtered: bool, now: int, rand: nat -> nat) {
    && n <= |t.random| == |t0.random| && Consistent(p, t) && Evolves(t0, t) && OnlyReordered(t0, t) && t.mapAddr == t0.mapAddr
    && t.random == Shuffled(t0.random, n, rand) && Chosen(t, n, ids, addresses, network, filtered, now)
  }

  lemma StartChoosing(p: Placement, t: Tables, network: Option<nat>, filtered: bool, now: int, rand: nat -> nat)
    requires Consistent(p, t)
    ensures Choosing(p, t, t, 0, [], [], network, filtered, now, rand)
  {
    hide Inv;
  }

  lemma ChoosingFacts(p: Placement, t0: Tables, t: Tables, n: nat, ids: seq<Id>, addresses: seq<Service>,
                      network: Option<nat>, filtered: bool, now: int, rand: nat -> nat)
    requires Choosing(p, t0, t, n, ids, addresses, network, filtered, now, rand)
    ensures n <= |t.random| == |t0.random| && Consistent(p, t) && Evolves(t0, t) && OnlyReordered(t0, t) && t.mapAddr == t0.mapAddr
    ensures t.random == Shuffled(t0.random, n, rand) && Chosen(t, n, ids, addresses, network, filtered, now)
  {
  }

  lemma ChoosingNext(p: Placement, t0: Tables, t: Tables, n: nat, ids: seq<Id>, addresses: seq<Service>,
                     network: Option<nat>, filtered: bool, now: int, rand: nat -> nat)
    requires Choosing(p, t0, t, n, ids, addresses, network, filtered, now, rand) && n < |t.random|
    ensures var pos := n + rand(n) % (|t.random| - n);
            && t.random[n] in t.mapInfo && t.random[pos] in t.mapInfo
            && var u := Swapped(t, n, pos);
               && |u.random| == |t.random| && u.random[n] in u.mapInfo
               && var info := u.mapInfo[u.random[n]];
                  if Qualifies(info, network, filtered, now)
                  then Choosing(p, t0, u, n + 1, ids + [u.random[n]], addresses + [info.addr], network, filtered, now, rand)
                  else Choosing(p, t0, u, n + 1, ids, addresses, network, filtered, now, rand)
  {
    hide Inv, Evolves, OnlyReordered, Chosen, Qualifies, Swapped, Shuffled;
    var pos := n + rand(n) % (|t.random| - n);
    InRandom(p, t, n);
    InRandom(p, t, pos);
    var u := Swapped(t, n, pos);
    KeepsSwapped(p, t, {}, {}, n, pos);
    ShuffledNext(t, t0.random, n, rand);
    SwappedReorders(t, n, pos);
    SameAddresses(t, n, pos);
    ChosenSwapped(t, n, pos, ids, addresses, network, filtered, now);
    EvolvesTransitive(t0, t, u);
    ReorderedTwice(t0, t, u);
    InRandom(p, u, n);
    ChosenNext(u, n, ids, addresses, network, filtered, now);
  }

  lemma SameAddresses(t: Tables, i: nat, j: nat)
    requires i < |t.random| && j < |t.random| && t.random[i] in t.mapInfo && t.random[j] in t.mapInfo
    ensures Swapped(t, i, j).mapAddr == t.mapAddr
  {
  }

  lemma ReorderedTwice(t: Tables, u: Tables, v: Tables)
    requires OnlyReordered(t, u) && OnlyReordered(u, v)
    ensures OnlyReordered(t, v)
  {
  }

  lemma InRandom(p: Placement, t: Tables, n: nat)
    requires Consistent(p, t) && n < |t.random|
    ensures t.random[n] in t.mapInfo && t.random[n] !in t.random[..n]
  {
    assert RandomIndexed(t, n);
    forall i: nat | i < n ensures t.random[i] != t.random[n] {
      assert RandomIndexed(t, i);
    }
  }

  lemma ChosenSwapped(t: Tables, n: nat, pos: nat, ids: seq<Id>, addresses: seq<Service>, network: Option<nat>, filtered: bool, now: int)
    requires Chosen(t, n, ids, addresses, network, filtered, now) && n < |t.random| && n <= pos < |t.random|
    requires t.random[n] in t.mapInfo && t.random[pos] in t.mapInfo && OnlyReordered(t, Swapped(t, n, pos))
    ensures Chosen(Swapped(t, n, pos), n, ids, addresses, network, filtered, now) && |Swapped(t, n, pos).random| == |t.random|
  {
    var u := Swapped(t, n, pos);
    assert u.random[..n] == t.random[..n];
    forall i | 0 <= i < |ids| ensures ids[i] in u.random[..n] && ChosenAt(u, ids[i], addresses[i], network, filtered, now) {
      assert ChosenAt(t, ids[i], addresses[i], network, filtered, now);
    }
    forall i | 0 <= i < n && u.random[i] in u.mapInfo && Qualifies(u.mapInfo[u.random[i]], network, filtered, now) ensures u.random[i] in ids {
      assert u.random[i] == u.random[..n][i] == t.random[..n][i] == t.random[i];
    }
  }

  lemma ChosenNext(t: Tables, n: nat, ids: seq<Id>, addresses: seq<Service>, network: Option<nat>, filtered: bool, now: int)
    requires Chosen(t, n, ids, addresses, network, filtered, now) && n < |t.random| && t.random[n] in t.mapInfo && t.random[n] !in t.random[..n]
    ensures var info := t.mapInfo[t.random[n]];
            if Qualifies(info, network, filtered, now)
            then Chosen(t, n + 1, ids + [t.random[n]], addresses + [info.addr], network, filtered, now)
            else Chosen(t, n + 1, ids, addresses, network, filtered, now)
  {
    assert t.random[..n + 1] == t.random[..n] + [t.random[n]];
    var info := t.mapInfo[t.random[n]];
    if Qualifies(info, network, filtered, now) {
      var more, all := ids + [t.random[n]], addresses + [info.addr];
      forall i | 0 <= i < |more| ensures more[i] in t.random[..n + 1] && ChosenAt(t, more[i], all[i], network, filtered, now) {
        assert i < |ids| ==> ChosenAt(t, ids[i], addresses[i], network, filtered, now);
      }
    }
  }

  lemma ChosenAll(p: Placement, t: Tables, n: nat, ids: seq<Id>, addresses: seq<Service>, network: Option<nat>, filtered: bool, now: int)
    requires Consistent(p, t) && Chosen(t, n, ids, addresses, network, filtered, now)
    ensures forall id | id in ids :: id in t.random[..n]
    ensures |ids| == |addresses| && Distinct(ids) && forall i | 0 <= i < |ids| ::
              ids[i] in t.mapInfo && addresses[i] == t.mapInfo[ids[i]].addr && Qualifies(t.mapInfo[ids[i]], network, filtered, now)
    ensures n == |t.random| ==> forall id | id in t.mapInfo && Qualifies(t.mapInfo[id], network, filtered, now) :: id in ids
  {
    forall i | 0 <= i < |ids|
      ensures ids[i] in t.mapInfo && addresses[i] == t.mapInfo[ids[i]].addr && Qualifies(t.mapInfo[ids[i]], network, filtered, now)
    {
      assert ChosenAt(t, ids[i], addresses[i], network, filtered, now);
    }
    if n == |t.random| {
      forall id | id in t.mapInfo && Qualifies(t.mapInfo[id], network, filtered, now) ensures id in ids {
        assert Indexed(t, id);
      }
    }
  }

  const NO_INFO := AddrInfo(Service(0, 0, 0, false, false), 0, 0, {}, 0, 0, 0, 0, 0, false, -1)

  /** The statistics after an attempt that may have failed. */
  ghost function Attempted(i: AddrInfo, countFailure: bool, lastGood: int, time: int): AddrInfo {
    if countFailure && i.lastCountAttempt < lastGood
    then i.(lastTry := time, lastCountAttempt := time, attempts := i.attempts + 1)
    else i.(lastTry := time)
  }

  /** The statistics after an address was connected to. */
  ghost function Seen(i: AddrInfo, time: int): AddrInfo {
    if time - i.time > 20 * MINUTE then i.(time := time) else i
  }

  datatype Decision = Wait | Drop | Replace

  /** What is to be done about a collision. */
  ghost function Resolution(p: Placement, t: Tables, id: Id, now: int): Decision {
    if id !in t.mapInfo || !t.mapInfo[id].addr.isValid then Drop
    else
      var k := TriedSlot(p, t.mapInfo[id].addr);
      if k !in t.tried then Replace
      else if t.tried[k] !in t.mapInfo then Wait
      else
        var o := t.mapInfo[t.tried[k]];
        if now - o.lastSuccess < REPLACEMENT then Drop
        else if now - o.lastTry < REPLACEMENT then if now - o.lastTry > MINUTE then Replace else Wait
        else if now - t.mapInfo[id].lastSuccess > TEST_WINDOW then Replace else Wait
  }

  /** A collision was looked at, and stayed exactly if it was to wait. */
  ghost predicate Visited(p: Placement, t: Tables, w: Tables, id: Id, now: int, left: bool) {
    exists u :: Consistent(p, u) && Evolves(t, u) && Evolves(u, w) && (left <==> Resolution(p, u, id, now) == Wait)
  }

  lemma VisitedNow(p: Placement, t: Tables, u: Tables, w: Tables, id: Id, now: int)
    requires Consistent(p, u) && Evolves(t, u) && Evolves(u, w)
    ensures Visited(p, t, w, id, now, Resolution(p, u, id, now) == Wait)
  {
    hide Inv, Evolves, Resolution;
  }

  lemma VisitedBefore(p: Placement, t: Tables, v: Tables, w: Tables, id: Id, now: int, left: bool)
    requires Visited(p, t, v, id, now, left) && Evolves(v, w)
    ensures Visited(p, t, w, id, now, left)
  {
    hide Inv, Evolves, Resolution;
    var u :| Consistent(p, u) && Evolves(t, u) && Evolves(u, v) && (left <==> Resolution(p, u, id, now) == Wait);
    EvolvesTransitive(u, v, w);
  }

  lemma FewerCollisions(p: Placement, t: Tables, collisions: set<Id>, id: Id)
    requires CollisionsOk(p, t, collisions)
    ensures CollisionsOk(p, t, collisions - {id})
  {
    assert |collisions - {id}| <= |collisions|;
  }

  /** The slot that a live collision wants is taken by a tried entry. */
  lemma CollisionTaken(p: Placement, t: Tables, collisions: set<Id>, id: Id)
    requires Consistent(p, t) && CollisionsOk(p, t, collisions) && id in collisions && id in t.mapInfo
    ensures var k := TriedSlot(p, t.mapInfo[id].addr);
            k in t.tried && t.tried[k] in t.mapInfo && t.mapInfo[t.tried[k]].inTried
    ensures t.mapInfo[id].addr in t.mapAddr && t.mapAddr[t.mapInfo[id].addr] == id
  {
    TriedOwnerIn(p, t, {}, {}, TriedSlot(p, t.mapInfo[id].addr));
    assert Indexed(t, id);
  }

  lemma Times(p: Placement, t: Tables, id: Id)
    requires Consistent(p, t) && id in t.mapInfo
    ensures t.mapInfo[id].lastTry >= 0 && t.mapInfo[id].lastSuccess >= 0 && (t.mapInfo[id].inTried ==> t.mapInfo[id].lastSuccess != 0)
  {
    var none: set<Id> := {};
    assert none + none == none;
    EntryAt(t, none, id);
  }

  /** A successful connection moves an address to the tried table. */
  predicate MovesToTried(p: Placement, t: Tables, a: Service, testBeforeEvict: bool) {
    && a in t.mapAddr && t.mapAddr[a] in t.mapInfo && !t.mapInfo[t.mapAddr[a]].inTried
    && !(testBeforeEvict && TriedSlot(p, a) in t.tried)
  }

  /** A new address would take an occupied tried slot, and a test is asked for. */
  predicate Collides(p: Placement, t: Tables, a: Service, testBeforeEvict: bool) {
    && a in t.mapAddr && t.mapAddr[a] in t.mapInfo && !t.mapInfo[t.mapAddr[a]].inTried
    && testBeforeEvict && TriedSlot(p, a) in t.tried
  }

  /** A successful connection is recorded. */
  ghost function Succeeded(t: Tables, a: Service, time: int): Tables {
    if a in t.mapAddr && t.mapAddr[a] in t.mapInfo
    then SetInfo(t, t.mapAddr[a], t.mapInfo[t.mapAddr[a]].(lastSuccess := time, lastTry := time, attempts := 0))
    else t
  }

  lemma SucceededFacts(t: Tables, a: Service, time: int)
    ensures var u := Succeeded(t, a, time);
            && u.tried == t.tried && u.new_ == t.new_ && u.mapAddr == t.mapAddr && u.mapInfo.Keys == t.mapInfo.Keys
            && (a !in t.mapAddr ==> u == t) && forall k | k in t.mapInfo :: u.mapInfo[k].inTried == t.mapInfo[k].inTried
  {
  }

  lemma CollisionsKept(p: Placement, t: Tables, u: Tables, collisions: set<Id>)
    requires CollisionsOk(p, t, collisions) && Evolves(t, u)
    ensures CollisionsOk(p, u, collisions)
  {
  }

  lemma CollisionAdded(p: Placement, t: Tables, collisions: set<Id>, id: Id)
    requires CollisionsOk(p, t, collisions) && |collisions| < TRIED_COLLISION_SIZE
    requires Consistent(p, t) && id in t.mapInfo && TriedSlot(p, t.mapInfo[id].addr) in t.tried
    ensures CollisionsOk(p, t, collisions + {id})
  {
    assert Indexed(t, id);
  }

  /** What is known of an address that is in the index. */
  lemma Known(p: Placement, t: Tables, a: Service)
    requires Consistent(p, t) && a in t.mapAddr
    ensures t.mapAddr[a] in t.mapInfo && t.mapInfo[t.mapAddr[a]].addr == a && EntryOk(t.mapInfo[t.mapAddr[a]], false)
  {
    assert AddrIndexed(t, a);
    var none: set<Id> := {};
    assert none + none == none;
    EntryAt(t, none, t.mapAddr[a]);
  }

  lemma InsertedThere(p: Placement, t: Tables, u: Tables, id: Id, s: Slot)
    requires Consistent(p, u) && Inserted(t, u, id, s)
    ensures id in t.mapInfo && id in u.mapInfo && u.mapInfo[id].addr == t.mapInfo[id].addr
    ensures u.mapInfo[id].addr in u.mapAddr && u.mapAddr[u.mapInfo[id].addr] == id
    ensures u.new_ == t.new_[s := id] && u.new_ != t.new_ && u.tried == t.tried
  {
    assert Indexed(u, id);
    assert u.new_[s] == id;
  }

  // ----- adding addresses

  /** A slot of the new table can be given to an entry: it is free, or another entry holds it that is terrible or, if
      this is to be the first slot, has other slots. */
  ghost predicate SlotYields(t: Tables, s: Slot, id: Id, first: bool, now: int) {
    s in t.new_ ==>
      && t.new_[s] != id && t.new_[s] in t.mapInfo
      && (IsTerrible(t.mapInfo[t.new_[s]], now) || (first && t.mapInfo[t.new_[s]].refCount > 1))
  }

  /** What is known of an address after it was announced again: its services, and its time if that is much later. */
  ghost function Refreshed(i: AddrInfo, addr: Address, penalty: int, now: int): AddrInfo {
    var interval := if now - addr.time < DAY then HOUR else DAY;
    i.(services := i.services + addr.services,
       time := if i.time < addr.time - interval - penalty then Max(0, addr.time - penalty) else i.time)
  }

  /** The time only moves forward, not beyond the time announced, and is at most an interval behind it. */
  lemma RefreshedTime(i: AddrInfo, addr: Address, penalty: int, now: int)
    ensures var time := Refreshed(i, addr, penalty, now).time;
            && i.time <= time <= Max(i.time, Max(0, addr.time - penalty))
            && time >= addr.time - penalty - if now - addr.time < DAY then HOUR else DAY
  {
  }

  /** A known address is to get another slot: it has news, is new, and may have more slots. */
  ghost predicate WantsSlot(i: AddrInfo, addr: Address, lucky: int -> bool) {
    addr.time > i.time && !i.inTried && i.refCount != NEW_BUCKETS_PER_ADDRESS && lucky(i.refCount)
  }

  /** An address that was not known was inserted exactly if its slot yields, with what was announced; nothing else
      became known. */
  ghost predicate AddedFirst(t: Tables, u: Tables, addr: Address, source: Source, penalty: int, s: Slot, now: int, inserted: bool) {
    var id, a := t.idCount, addr.service;
    && (inserted <==> SlotYields(t, s, id, true, now))
    && if inserted then
         && u.new_ == t.new_[s := id] && a in u.mapAddr && u.mapAddr[a] == id && id in u.mapInfo
         && u.mapInfo[id] == AddrInfo(a, source, Max(0, addr.time - penalty), addr.services, 0, 0, 0, 0, 1, false, u.mapInfo[id].randomPos)
         && forall k | k in u.mapInfo && k != id :: k in t.mapInfo && SameStats(t.mapInfo[k], u.mapInfo[k])
       else u.new_ == t.new_ && u.mapAddr == t.mapAddr && u.mapInfo.Keys == t.mapInfo.Keys && StatsKept(t, u)
  }

  /** A known address was refreshed, and got another slot exactly if it wants one and its slot yields. */
  ghost predicate AddedKnown(t: Tables, u: Tables, addr: Address, penalty: int, s: Slot, now: int, lucky: int -> bool, inserted: bool)
    requires addr.service in t.mapAddr
  {
    var id := t.mapAddr[addr.service];
    && id in t.mapInfo
    && var info := Refreshed(t.mapInfo[id], addr, penalty, now);
       && (inserted <==> WantsSlot(info, addr, lucky) && SlotYields(t, s, id, false, now))
       && if inserted then
            && u.new_ == t.new_[s := id] && id in u.mapInfo && u.mapInfo[id].refCount == info.refCount + 1
            && StatsKept(SetInfo(t, id, info), u)
          else u == SetInfo(t, id, info)
  }

  lemma NotAgain(t: Tables, u: Tables, addr: Address, penalty: int, s: Slot, now: int, lucky: int -> bool)
    requires addr.service in t.mapAddr && t.mapAddr[addr.service] in t.mapInfo
    requires var info := Refreshed(t.mapInfo[t.mapAddr[addr.service]], addr, penalty, now);
             !WantsSlot(info, addr, lucky) && u == SetInfo(t, t.mapAddr[addr.service], info)
    ensures AddedKnown(t, u, addr, penalty, s, now, lucky, false)
  {
  }

  lemma AddedAgain(p: Placement, t: Tables, u: Tables, w: Tables, addr: Address, penalty: int, s: Slot, now: int, lucky: int -> bool, inserted: bool)
    requires addr.service in t.mapAddr && t.mapAddr[addr.service] in t.mapInfo
    requires var id := t.mapAddr[addr.service];
             var info := Refreshed(t.mapInfo[id], addr, penalty, now);
             && WantsSlot(info, addr, lucky) && u == SetInfo(t, id, info)
             && (inserted <==> SlotYields(u, s, id, false, now))
             && if inserted then Inserted(u, w, id, s) else w == u
    ensures AddedKnown(t, w, addr, penalty, s, now, lucky, inserted)
  {
  }

  lemma NoSuchId(p: Placement, t: Tables)
    requires Consistent(p, t)
    ensures t.idCount !in t.mapInfo && forall s | s in t.new_ :: t.new_[s] in t.mapInfo
  {
    NewId(t);
    forall s | s in t.new_ ensures t.new_[s] in t.mapInfo {
      assert NewSlotOk(p, t, s);
    }
  }

  /** The entry created for an address that was not known. */
  ghost function FirstEntry(t: Tables, addr: Address, source: Source, penalty: int): Tables {
    var id := t.idCount;
    var u := Created(t, addr.service, source, addr.time, addr.services);
    SetInfo(u, id, u.mapInfo[id].(time := Max(0, addr.time - penalty)))
  }

  lemma FirstYields(p: Placement, t: Tables, addr: Address, source: Source, penalty: int, s: Slot, now: int)
    requires Consistent(p, t)
    ensures SlotYields(FirstEntry(t, addr, source, penalty), s, t.idCount, true, now) <==> SlotYields(t, s, t.idCount, true, now)
  {
    hide Inv, IsTerrible;
    NoSuchId(p, t);
  }

  lemma PlacedFirst(p: Placement, t: Tables, v: Tables, u: Tables, addr: Address, source: Source, penalty: int, s: Slot, now: int)
    requires Consistent(p, t) && v == FirstEntry(t, addr, source, penalty) && Inserted(v, u, t.idCount, s)
    requires SlotYields(v, s, t.idCount, true, now) && addr.service in u.mapAddr && u.mapAddr[addr.service] == t.idCount
    ensures AddedFirst(t, u, addr, source, penalty, s, now, true)
  {
    hide Inv, SlotYields;
    NoSuchId(p, t);
    FirstYields(p, t, addr, source, penalty, s, now);
  }

  lemma NotCreated(p: Placement, t: Tables, v: Tables, u: Tables, addr: Address, source: Source, penalty: int, s: Slot, now: int)
    requires Consistent(p, t) && v == FirstEntry(t, addr, source, penalty) && OnlyGone(v, u, t.idCount)
    requires !SlotYields(v, s, t.idCount, true, now) && addr.service !in t.mapAddr
    ensures AddedFirst(t, u, addr, source, penalty, s, now, false)
  {
    hide Inv, SlotYields;
    NoSuchId(p, t);
    FirstYields(p, t, addr, source, penalty, s, now);
    assert t.mapAddr[addr.service := t.idCount] - {addr.service} == t.mapAddr;
    forall k | k in u.mapInfo ensures k in t.mapInfo && SameStats(t.mapInfo[k], u.mapInfo[k]) {
      assert SameEntry(v, u, k);
    }
  }

  /** The set of the entry, if it is in no slot. */
  ghost function LooseIf(t: Tables, id: Id): set<Id>
    requires id in t.mapInfo
  {
    if t.mapInfo[id].refCount == 0 then {id} else {}
  }

  ghost predicate Placeable(p: Placement, t: Tables, id: Id, s: Slot)
    requires id in t.mapInfo
  {
    && !t.mapInfo[id].inTried && t.mapInfo[id].refCount < NEW_BUCKETS_PER_ADDRESS
    && s.bucket < NEW_BUCKET_COUNT && s == NewSlot(p, t.mapInfo[id].addr, s.bucket)
  }

  /** An entry got a slot of the new table, and nothing else moved. */
  ghost predicate Inserted(t: Tables, u: Tables, id: Id, s: Slot) {
    && u.new_ == t.new_[s := id] && u.tried == t.tried && (s in t.new_ ==> t.new_[s] != id)
    && id in t.mapInfo && id in u.mapInfo && u.mapInfo[id].addr == t.mapInfo[id].addr
    && u.mapInfo[id].refCount == t.mapInfo[id].refCount + 1 && u.mapInfo[id].inTried == t.mapInfo[id].inTried
    && StatsKept(t, u)
  }

  lemma SameTables(t: Tables)
    ensures Evolves(t, t)
  {
  }

  lemma NoLoose(id: Id)
    ensures {id} - {id} == {}
  {
  }

  lemma SlotHolder(p: Placement, t: Tables, id: Id, s: Slot)
    requires id in t.mapInfo && Inv(p, t, LooseIf(t, id), {}) && s in t.new_ && t.new_[s] == id
    ensures Consistent(p, t) && t.mapInfo[id].refCount > 0
  {
    SlotOwner(p, t, LooseIf(t, id) + {}, s);
  }

  lemma Replaces(p: Placement, t: Tables, id: Id, s: Slot)
    requires id in t.mapInfo && Inv(p, t, LooseIf(t, id), {}) && Placeable(p, t, id, s) && (s in t.new_ ==> t.new_[s] != id)
    ensures Clearable(t, s) && (s in t.new_ ==> t.mapInfo[t.new_[s]].refCount > 0 && !t.mapInfo[t.new_[s]].inTried)
    ensures id in ClearedNew(t, s).mapInfo
    ensures var u := Slotted(ClearedNew(t, s), s, id);
            Consistent(p, u) && Evolves(t, u) && Inserted(t, u, id, s)
  {
    hide Inv, Evolves, ClearedNew, OnlyCleared, Slotted;
    var loose := LooseIf(t, id);
    KeepsClearedNew(p, t, loose, {}, s);
    if s in t.new_ {
      SlotOwnerIn(p, t, loose, {}, s);
    }
    var c := ClearedNew(t, s);
    ClearedKeeps(t, c, s, id);
    KeepsSlotted(p, c, loose, {}, s, id);
    assert loose - {id} == {};
    EvolvesTransitive(t, c, Slotted(c, s, id));
    PutInto(t, c, id, s);
  }

  lemma PutInto(t: Tables, c: Tables, id: Id, s: Slot)
    requires OnlyCleared(t, c, s) && SameEntry(t, c, id) && (s in t.new_ ==> t.new_[s] != id)
    ensures Inserted(t, Slotted(c, s, id), id, s)
  {
    assert (t.new_ - {s})[s := id] == t.new_[s := id];
  }

  lemma EvictClears(p: Placement, t: Tables, u: Tables, id: Id, k: Slot, s: Slot)
    requires Inv(p, t, {}, {id}) && k in t.tried && t.tried[k] in t.mapInfo && u == Untried(t, k)
    requires s == OwnSlot(p, t.mapInfo[t.tried[k]])
    ensures Clearable(u, s) && (s in u.new_ ==> u.mapInfo[u.new_[s]].refCount > 0 && !u.mapInfo[u.new_[s]].inTried)
    ensures var e := t.tried[k]; e in ClearedNew(u, s).mapInfo && ClearedNew(u, s).mapInfo[e].refCount == 0
    ensures ClearedNew(u, s).mapInfo[t.tried[k]].addr.network == t.mapInfo[t.tried[k]].addr.network
  {
    hide Inv, ClearedNew, IdsKept, OnlyCleared, Evolves;
    KeepsUntried(p, t, {}, {id}, k);
    var e := t.tried[k];
    KeepsClearedNew(p, u, {}, {id} + {e}, s);
    if s in u.new_ {
      SlotOwnerIn(p, u, {}, {id} + {e}, s);
    }
    ClearedKeeps(u, ClearedNew(u, s), s, e);
    LooseEntry(p, u, {}, {id} + {e}, e);
  }

  lemma TriedOwnerIn(p: Placement, t: Tables, loose: set<Id>, limbo: set<Id>, k: Slot)
    requires Inv(p, t, loose, limbo) && k in t.tried
    ensures t.tried[k] in t.mapInfo && t.mapInfo[t.tried[k]].inTried
  {
    TriedOwner(p, t, loose + limbo, k);
  }

  lemma SlotOwnerIn(p: Placement, t: Tables, loose: set<Id>, limbo: set<Id>, s: Slot)
    requires Inv(p, t, loose, limbo) && s in t.new_
    ensures t.new_[s] in t.mapInfo && t.mapInfo[t.new_[s]].refCount > 0 && !t.mapInfo[t.new_[s]].inTried
  {
    SlotOwner(p, t, loose + limbo, s);
  }

  /** The new table without an entry. */
  ghost function Without(table: map<Slot, Id>, id: Id): map<Slot, Id> {
    map s | s in table && table[s] != id :: table[s]
  }

  /** An entry is tried, in its slot, and has left the new table; the entry that had been there is new, in its own
      slot, and nothing else was learnt. */
  ghost predicate NowTried(p: Placement, t: Tables, u: Tables, id: Id) {
    && id in t.mapInfo && id in u.mapInfo && u.mapInfo[id].inTried && StatsKept(t, u)
    && var k := TriedSlot(p, t.mapInfo[id].addr);
       && u.tried == t.tried[k := id]
       && if k in t.tried && t.tried[k] in t.mapInfo then
            var e := t.tried[k];
            && e in u.mapInfo && !u.mapInfo[e].inTried && u.mapInfo[e].refCount == 1
            && u.new_ == Without(t.new_, id)[OwnSlot(p, t.mapInfo[e]) := e]
          else u.new_ == Without(t.new_, id)
  }

  lemma StillThere(t: Tables, u: Tables, id: Id)
    requires Emptying(t, u, id)
    ensures id in u.mapInfo && u.mapInfo[id] == t.mapInfo[id].(refCount := u.mapInfo[id].refCount) && u.tried == t.tried
    ensures u.mapInfo.Keys == t.mapInfo.Keys && forall k | k in t.mapInfo && k != id :: u.mapInfo[k] == t.mapInfo[k]
  {
  }

  lemma AllLeft(p: Placement, t: Tables, u: Tables, id: Id)
    requires Emptying(t, u, id) && Inv(p, u, {id}, {})
    ensures u.new_ == Without(t.new_, id)
  {
    LooseEntry(p, u, {id}, {}, id);
    NoRefs(p, u, id);
    forall s | s in u.new_ ensures u.new_[s] != id {
      assert u.new_[s] == id ==> s in SlotsOf(u.new_, id);
    }
  }

  lemma BecomesTried(p: Placement, t: Tables, u: Tables, id: Id)
    requires Emptying(t, u, id) && Inv(p, u, {id}, {}) && Evolves(t, u) && t.mapInfo[id].lastSuccess != 0
    ensures id in u.mapInfo && Inv(p, Uncounted(u, id), {}, {id})
    ensures var v, k := Uncounted(u, id), TriedSlot(p, t.mapInfo[id].addr);
            && (k in v.tried ==> Evictable(p, v, k))
            && id in MadeRoom(p, v, k).mapInfo && MadeRoom(p, v, k).mapInfo[id].addr == t.mapInfo[id].addr
            && var w := Tried(MadeRoom(p, v, k), k, id);
               Consistent(p, w) && Evolves(t, w) && NowTried(p, t, w, id)
  {
    hide Inv, Evolves, Evictable, MadeRoom, OnlyEvicted, IdsKept, Emptying;
    StillThere(t, u, id);
    KeepsUncounted(p, u, {id}, {}, id);
    var none: set<Id> := {};
    assert {id} - {id} == none && none + {id} == {id};
    var v, k := Uncounted(u, id), TriedSlot(p, t.mapInfo[id].addr);
    KeepsMadeRoom(p, v, id, k);
    var m := MadeRoom(p, v, k);
    LooseEntry(p, m, {}, {id}, id);
    LooseEntry(p, u, {id}, {}, id);
    if k in v.tried {
      TriedOwnerIn(p, v, {}, {id}, k);
    }
    KeepsTried(p, m, {}, {id}, k, id);
    TriedEvolves(t, u, v, m, Tried(m, k, id), k, id);
    AllLeft(p, t, u, id);
    MovedTried(p, t, u, v, m, id, k);
  }

  lemma TriedEvolves(t: Tables, u: Tables, v: Tables, m: Tables, w: Tables, k: Slot, id: Id)
    requires Evolves(t, u) && Evolves(u, v) && IdsKept(v, m) && IdsKept(m, w)
    requires v.tried == u.tried && m.tried == v.tried - {k} && w.tried == m.tried[k := id]
    ensures Evolves(t, w)
  {
    IdsKeptTransitive(t, u, v);
    IdsKeptTransitive(t, v, m);
    IdsKeptTransitive(t, m, w);
  }

  lemma MovedTried(p: Placement, t: Tables, u: Tables, v: Tables, m: Tables, id: Id, k: Slot)
    requires id in t.mapInfo && id in u.mapInfo && u.tried == t.tried && u.mapInfo.Keys == t.mapInfo.Keys
    requires SameStats(t.mapInfo[id], u.mapInfo[id]) && !u.mapInfo[id].inTried && u.new_ == Without(t.new_, id)
    requires forall j | j in t.mapInfo && j != id :: u.mapInfo[j] == t.mapInfo[j]
    requires v == Uncounted(u, id) && k == TriedSlot(p, t.mapInfo[id].addr)
    requires SameEntry(v, m, id) && m.tried == v.tried - {k} && StatsKept(v, m) && (k !in v.tried ==> m == v)
    requires k in v.tried ==> v.tried[k] in v.mapInfo && v.mapInfo[v.tried[k]].inTried && OnlyEvicted(p, v, m, k, id)
    ensures NowTried(p, t, Tried(m, k, id), id)
  {
    hide Without, OwnSlot, TriedSlot;
    StatsTriedAgain(t, u, v, m, id, k);
    assert (t.tried - {k})[k := id] == t.tried[k := id];
  }

  lemma StatsTriedAgain(t: Tables, u: Tables, v: Tables, m: Tables, id: Id, k: Slot)
    requires id in t.mapInfo && id in u.mapInfo && u.mapInfo.Keys == t.mapInfo.Keys && SameStats(t.mapInfo[id], u.mapInfo[id])
    requires forall j | j in t.mapInfo && j != id :: u.mapInfo[j] == t.mapInfo[j]
    requires v == Uncounted(u, id) && StatsKept(v, m) && id in m.mapInfo
    ensures StatsKept(t, Tried(m, k, id))
  {
  }

  // ----- the loop over the buckets

  ghost predicate Leaving(p: Placement, t: Tables, u: Tables, id: Id, start: nat, n: nat)
    requires start < NEW_BUCKET_COUNT
  {
    && id in u.mapInfo && Inv(p, u, if u.mapInfo[id].refCount == 0 then {id} else {}, {})
    && Emptying(t, u, id) && Evolves(t, u) && OnlyLater(u, id, start, n)
  }

  lemma StartLeaving(p: Placement, t: Tables, id: Id)
    requires Consistent(p, t) && id in t.mapInfo && !t.mapInfo[id].inTried
    ensures t.mapInfo[id].refCount > 0 && Evolves(t, t)
  {
    var none: set<Id> := {};
    assert none + none == none;
    EntryAt(t, none, id);
  }

  lemma LeavingStep(p: Placement, t: Tables, u: Tables, id: Id, start: nat, n: nat)
    requires start < NEW_BUCKET_COUNT && n < NEW_BUCKET_COUNT
    requires Leaving(p, t, u, id, start, n) && u.mapInfo[id].refCount > 0
    ensures var s := NewSlot(p, u.mapInfo[id].addr, (start + n) % NEW_BUCKET_COUNT);
            if s in u.new_ && u.new_[s] == id then Leaving(p, t, Unslotted(u, s), id, start, n + 1) else Leaving(p, t, u, id, start, n + 1)
  {
    hide Inv, Emptying, OnlyLater, Evolves;
    VisitBucket(p, u, {}, {}, id, start, n);
    var s := NewSlot(p, u.mapInfo[id].addr, (start + n) % NEW_BUCKET_COUNT);
    if s in u.new_ && u.new_[s] == id {
      KeepsUnslotted(p, u, {}, {}, s);
      EmptyingStep(t, u, id, s);
      EvolvesTransitive(t, u, Unslotted(u, s));
      var none: set<Id> := {};
      assert none + {id} == {id};
    }
  }

  lemma LeavingEnd(p: Placement, t: Tables, u: Tables, id: Id, start: nat, n: nat)
    requires start < NEW_BUCKET_COUNT && n <= NEW_BUCKET_COUNT && Leaving(p, t, u, id, start, n)
    requires u.mapInfo[id].refCount == 0 || n == NEW_BUCKET_COUNT
    ensures Inv(p, u, {id}, {}) && Emptying(t, u, id) && Evolves(t, u)
  {
    hide Inv, Emptying, OnlyLater, Evolves;
    if u.mapInfo[id].refCount != 0 {
      AllVisited(p, u, {}, {}, id, start);
    }
  }
}
