/** The small changes that the address manager's operations consist of. */
module AddrSteps {
  import opened AddrTables

  // ----- the changes

  function SetInfo(t: Tables, id: Id, info: AddrInfo): Tables {
    t.(mapInfo := t.mapInfo[id := info])
  }

  /** Add to the counters of new and tried entries. */
  function Recounted(t: Tables, network: nat, dNew: int, dTried: int): Tables {
    var c := CountOf(t, network);
    t.(nNew := t.nNew + dNew, nTried := t.nTried + dTried,
       counts := t.counts[network := Counts(c.inNew + dNew, c.inTried + dTried)])
  }

  /** Create an entry, which is not in any slot yet. */
  function Created(t: Tables, addr: Service, source: Source, time: int, services: set<nat>): Tables {
    var id := t.idCount;
    Recounted(t.(idCount := id + 1,
                 mapInfo := t.mapInfo[id := AddrInfo(addr, source, time, services, 0, 0, 0, 0, 0, false, |t.random|)],
                 mapAddr := t.mapAddr[addr := id],
                 random := t.random + [id]), addr.network, 1, 0)
  }

  function Swapped(t: Tables, i: nat, j: nat): Tables
    requires i < |t.random| && j < |t.random| && t.random[i] in t.mapInfo && t.random[j] in t.mapInfo
  {
    if i == j then t
    else
      var a, b := t.random[i], t.random[j];
      var m := t.mapInfo[a := t.mapInfo[a].(randomPos := j)];
      t.(mapInfo := m[b := m[b].(randomPos := i)], random := t.random[i := b][j := a])
  }

  /** Remove the entry at the end of the random order. */
  function Dropped(t: Tables, id: Id): Tables
    requires id in t.mapInfo && t.random != []
  {
    var info := t.mapInfo[id];
    Recounted(t.(random := t.random[..|t.random| - 1], mapAddr := t.mapAddr - {info.addr}, mapInfo := t.mapInfo - {id}),
              info.addr.network, -1, 0)
  }

  /** Take an entry out of a slot of the new table. */
  function Unslotted(t: Tables, s: Slot): Tables
    requires s in t.new_ && t.new_[s] in t.mapInfo
  {
    var id := t.new_[s];
    SetInfo(t, id, t.mapInfo[id].(refCount := t.mapInfo[id].refCount - 1)).(new_ := t.new_ - {s})
  }

  /** Put an entry into an empty slot of the new table. */
  function Slotted(t: Tables, s: Slot, id: Id): Tables
    requires id in t.mapInfo
  {
    SetInfo(t, id, t.mapInfo[id].(refCount := t.mapInfo[id].refCount + 1)).(new_ := t.new_[s := id])
  }

  /** Stop counting an entry that is in no slot as new. */
  function Uncounted(t: Tables, id: Id): Tables
    requires id in t.mapInfo
  {
    Recounted(t, t.mapInfo[id].addr.network, -1, 0)
  }

  /** Count an entry as new again. */
  function Counted(t: Tables, id: Id): Tables
    requires id in t.mapInfo
  {
    Recounted(t, t.mapInfo[id].addr.network, 1, 0)
  }

  /** Take an entry out of the tried table. */
  function Untried(t: Tables, s: Slot): Tables
    requires s in t.tried && t.tried[s] in t.mapInfo
  {
    var id := t.tried[s];
    Recounted(SetInfo(t, id, t.mapInfo[id].(inTried := false)).(tried := t.tried - {s}), t.mapInfo[id].addr.network, 0, -1)
  }

  /** Put an entry into the tried table. */
  function Tried(t: Tables, s: Slot, id: Id): Tables
    requires id in t.mapInfo
  {
    Recounted(SetInfo(t, id, t.mapInfo[id].(inTried := true)).(tried := t.tried[s := id]), t.mapInfo[id].addr.network, 0, 1)
  }

  // ----- parts of the invariant that a change does not touch

  ghost predicate SameKeys(t: Tables, u: Tables) {
    t.mapInfo.Keys == u.mapInfo.Keys
  }

  /** The entries agree in what the index depends on. */
  ghost predicate SameIndex(t: Tables, u: Tables) {
    && SameKeys(t, u)
    && forall id | id in t.mapInfo :: u.mapInfo[id].addr == t.mapInfo[id].addr && u.mapInfo[id].randomPos == t.mapInfo[id].randomPos
  }

  lemma IndexSame(t: Tables, u: Tables)
    requires IndexOk(t) && SameIndex(t, u) && u.mapAddr == t.mapAddr && u.random == t.random && u.idCount == t.idCount
    ensures IndexOk(u)
  {
    assert |u.mapInfo| == |u.mapInfo.Keys| == |t.mapInfo.Keys|;
    forall id | id in u.mapInfo ensures Indexed(u, id) {
      assert Indexed(t, id);
    }
    forall a | a in u.mapAddr ensures AddrIndexed(u, a) {
      assert AddrIndexed(t, a);
    }
    forall i: nat | i < |u.random| ensures RandomIndexed(u, i) {
      assert RandomIndexed(t, i);
    }
  }

  /** The entries agree in which table they are in. */
  ghost predicate SameTable(t: Tables, u: Tables) {
    && SameKeys(t, u)
    && forall id | id in t.mapInfo :: u.mapInfo[id].addr == t.mapInfo[id].addr && u.mapInfo[id].inTried == t.mapInfo[id].inTried
  }

  lemma TriedSame(p: Placement, t: Tables, u: Tables)
    requires TriedOk(p, t) && SameTable(t, u) && u.tried == t.tried
    ensures TriedOk(p, u)
  {
    forall s | s in u.tried ensures TriedSlotOk(p, u, s) {
      assert TriedSlotOk(p, t, s);
    }
    forall id | id in u.mapInfo ensures TriedIdOk(p, u, id) {
      assert TriedIdOk(p, t, id);
    }
  }

  lemma NewSame(p: Placement, t: Tables, u: Tables)
    requires NewOk(p, t) && SameKeys(t, u) && u.new_ == t.new_
    requires forall id | id in t.mapInfo ::
               && u.mapInfo[id].addr == t.mapInfo[id].addr && u.mapInfo[id].refCount == t.mapInfo[id].refCount
               && (t.mapInfo[id].inTried == u.mapInfo[id].inTried || SlotsOf(t.new_, id) == {})
    ensures NewOk(p, u)
  {
    forall s | s in u.new_ ensures NewSlotOk(p, u, s) {
      assert NewSlotOk(p, t, s);
      assert s in SlotsOf(t.new_, t.new_[s]);
    }
    forall id | id in u.mapInfo ensures RefsOk(u, id) {
      assert RefsOk(t, id);
    }
  }

  lemma EntriesSame(t: Tables, u: Tables, special: set<Id>, special': set<Id>, id: Id)
    requires EntriesOk(t, special) && SameKeys(t, u) && special' <= t.mapInfo.Keys && id in t.mapInfo
    requires forall k | k in t.mapInfo && k != id :: u.mapInfo[k] == t.mapInfo[k] && (k in special <==> k in special')
    requires EntryOk(u.mapInfo[id], id in special')
    ensures EntriesOk(u, special')
  {
    forall k | k in u.mapInfo ensures EntryAtOk(u, special', k) {
      assert EntryAtOk(t, special, k);
    }
  }

  ghost function One(b: bool): nat {
    if b then 1 else 0
  }

  lemma CardWithout(s: set<Id>, id: Id)
    ensures |s| == |s - {id}| + One(id in s)
  {
    if id !in s {
      assert s - {id} == s;
    }
  }

  /** All entries but one are counted as before. */
  ghost predicate CountedAlike(t: Tables, u: Tables, limbo: set<Id>, limbo': set<Id>, id: Id) {
    forall k | k != id ::
      && (k in t.mapInfo <==> k in u.mapInfo) && (k in limbo <==> k in limbo')
      && (k in t.mapInfo ==> u.mapInfo[k].addr == t.mapInfo[k].addr && u.mapInfo[k].inTried == t.mapInfo[k].inTried)
  }

  /** What changes in the counters when one entry changes. */
  ghost predicate CountsMove(t: Tables, u: Tables, limbo: set<Id>, limbo': set<Id>, id: Id, network: nat) {
    var dNew := One(id in NewIds(u, limbo')) - One(id in NewIds(t, limbo));
    var dTried := One(id in TriedIds(u)) - One(id in TriedIds(t));
    && (id in t.mapInfo ==> t.mapInfo[id].addr.network == network)
    && (id in u.mapInfo ==> u.mapInfo[id].addr.network == network)
    && u.nNew == t.nNew + dNew && u.nTried == t.nTried + dTried
    && (forall n :: CountOf(u, n) ==
          if n == network then Counts(CountOf(t, n).inNew + dNew, CountOf(t, n).inTried + dTried) else CountOf(t, n))
  }

  /** The counters follow the one entry that changes. */
  lemma CountsChange(t: Tables, u: Tables, limbo: set<Id>, limbo': set<Id>, id: Id, network: nat)
    requires CountsOk(t, limbo) && CountedAlike(t, u, limbo, limbo', id) && CountsMove(t, u, limbo, limbo', id, network)
    ensures CountsOk(u, limbo')
  {
    hide NewIds, TriedIds, Within, CountedAlike, CountOf;
    SameOthers(t, u, limbo, limbo', id);
    CardWithout(NewIds(t, limbo), id);
    CardWithout(NewIds(u, limbo'), id);
    CardWithout(TriedIds(t), id);
    CardWithout(TriedIds(u), id);
    forall n ensures CountOf(u, n) == Counts(|Within(u, NewIds(u, limbo'), n)|, |Within(u, TriedIds(u), n)|) {
      NetworkChange(t, u, limbo, limbo', id, network, n);
    }
  }

  lemma NetworkChange(t: Tables, u: Tables, limbo: set<Id>, limbo': set<Id>, id: Id, network: nat, n: nat)
    requires CountsOk(t, limbo) && CountedAlike(t, u, limbo, limbo', id) && CountsMove(t, u, limbo, limbo', id, network)
    ensures CountOf(u, n) == Counts(|Within(u, NewIds(u, limbo'), n)|, |Within(u, TriedIds(u), n)|)
  {
    hide NewIds, TriedIds, Within, CountedAlike, CountOf;
    SameOthers(t, u, limbo, limbo', id);
    WithinChange(t, u, NewIds(t, limbo), NewIds(u, limbo'), id, n, network);
    WithinChange(t, u, TriedIds(t), TriedIds(u), id, n, network);
  }

  lemma SameOthers(t: Tables, u: Tables, limbo: set<Id>, limbo': set<Id>, id: Id)
    requires CountedAlike(t, u, limbo, limbo', id)
    ensures NewIds(t, limbo) - {id} == NewIds(u, limbo') - {id} && TriedIds(t) - {id} == TriedIds(u) - {id}
    ensures NewIds(t, limbo) <= t.mapInfo.Keys && NewIds(u, limbo') <= u.mapInfo.Keys
    ensures TriedIds(t) <= t.mapInfo.Keys && TriedIds(u) <= u.mapInfo.Keys
    ensures forall k | k != id && k in t.mapInfo && k in u.mapInfo :: u.mapInfo[k].addr == t.mapInfo[k].addr
  {
  }

  lemma WithinChange(t: Tables, u: Tables, a: set<Id>, b: set<Id>, id: Id, n: nat, network: nat)
    requires a - {id} == b - {id} && a <= t.mapInfo.Keys && b <= u.mapInfo.Keys
    requires forall k | k != id && k in t.mapInfo && k in u.mapInfo :: u.mapInfo[k].addr == t.mapInfo[k].addr
    requires id in t.mapInfo ==> t.mapInfo[id].addr.network == network
    requires id in u.mapInfo ==> u.mapInfo[id].addr.network == network
    ensures |Within(u, b, n)| == |Within(t, a, n)| + if n == network then One(id in b) - One(id in a) else 0
  {
    var x, y := Within(u, b, n), Within(t, a, n);
    forall k | k != id ensures k in x <==> k in y {
      assert k in a - {id} <==> k in b - {id};
    }
    assert x - {id} == y - {id};
    CardWithout(x, id);
    CardWithout(y, id);
  }

  lemma CountsSame(t: Tables, u: Tables, limbo: set<Id>)
    requires CountsOk(t, limbo) && SameTable(t, u) && u.nNew == t.nNew && u.nTried == t.nTried && u.counts == t.counts
    ensures CountsOk(u, limbo)
  {
    assert NewIds(u, limbo) == NewIds(t, limbo) && TriedIds(u) == TriedIds(t);
    forall n ensures CountOf(u, n) == Counts(|Within(u, NewIds(u, limbo), n)|, |Within(u, TriedIds(u), n)|) {
      assert Within(u, NewIds(u, limbo), n) == Within(t, NewIds(t, limbo), n);
      assert Within(u, TriedIds(u), n) == Within(t, TriedIds(t), n);
    }
  }

  // ----- what each change does to the invariant

  lemma KeepsInfo(p: Placement, t: Tables, loose: set<Id>, limbo: set<Id>, id: Id, info: AddrInfo)
    requires Inv(p, t, loose, limbo) && id in t.mapInfo
    requires var i := t.mapInfo[id];
             info.addr == i.addr && info.refCount == i.refCount && info.inTried == i.inTried && info.randomPos == i.randomPos
    requires info.lastTry >= 0 && info.lastSuccess >= 0 && (info.inTried ==> info.lastSuccess != 0)
    ensures Inv(p, SetInfo(t, id, info), loose, limbo) && Evolves(t, SetInfo(t, id, info))
  {
    hide CountsOk, IndexOk, TriedOk, NewOk, EntriesOk;
    var u := SetInfo(t, id, info);
    IndexSame(t, u);
    TriedSame(p, t, u);
    NewSame(p, t, u);
    EntryAt(t, loose + limbo, id);
    EntriesSame(t, u, loose + limbo, loose + limbo, id);
    CountsSame(t, u, limbo);
  }

  lemma EntryAt(t: Tables, special: set<Id>, id: Id)
    requires EntriesOk(t, special)
    ensures special <= t.mapInfo.Keys && (id in t.mapInfo ==> EntryOk(t.mapInfo[id], id in special))
  {
    assert id in t.mapInfo ==> EntryAtOk(t, special, id);
  }

  lemma KeepsUncounted(p: Placement, t: Tables, loose: set<Id>, limbo: set<Id>, id: Id)
    requires Inv(p, t, loose, limbo) && id in loose
    ensures id in t.mapInfo && Inv(p, Uncounted(t, id), loose - {id}, limbo + {id}) && Evolves(t, Uncounted(t, id))
  {
    hide CountsOk, IndexOk, TriedOk, NewOk, EntriesOk;
    EntryAt(t, loose + limbo, id);
    var u := Uncounted(t, id);
    assert loose - {id} + (limbo + {id}) == loose + limbo;
    IndexSame(t, u);
    TriedSame(p, t, u);
    NewSame(p, t, u);
    EntriesSame(t, u, loose + limbo, loose + limbo, id);
    CountsUncounted(t, limbo, id);
  }

  lemma CountsUncounted(t: Tables, limbo: set<Id>, id: Id)
    requires CountsOk(t, limbo) && id in t.mapInfo && id !in limbo && !t.mapInfo[id].inTried
    ensures CountsOk(Uncounted(t, id), limbo + {id})
  {
    hide CountsOk;
    CountsChange(t, Uncounted(t, id), limbo, limbo + {id}, id, t.mapInfo[id].addr.network);
  }

  lemma CountsCounted(t: Tables, limbo: set<Id>, id: Id)
    requires CountsOk(t, limbo) && id in t.mapInfo && id in limbo && !t.mapInfo[id].inTried
    ensures CountsOk(Counted(t, id), limbo - {id})
  {
    hide CountsOk;
    CountsChange(t, Counted(t, id), limbo, limbo - {id}, id, t.mapInfo[id].addr.network);
  }

  lemma KeepsCounted(p: Placement, t: Tables, loose: set<Id>, limbo: set<Id>, id: Id)
    requires Inv(p, t, loose, limbo) && id in limbo
    ensures id in t.mapInfo && Inv(p, Counted(t, id), loose + {id}, limbo - {id}) && Evolves(t, Counted(t, id))
  {
    hide CountsOk, IndexOk, TriedOk, NewOk, EntriesOk;
    EntryAt(t, loose + limbo, id);
    var u := Counted(t, id);
    assert loose + {id} + (limbo - {id}) == loose + limbo;
    IndexSame(t, u);
    TriedSame(p, t, u);
    NewSame(p, t, u);
    EntriesSame(t, u, loose + limbo, loose + limbo, id);
    CountsCounted(t, limbo, id);
  }

  lemma SlotsMore(table: map<Slot, Id>, s: Slot, id: Id, k: Id)
    requires s !in table
    ensures |SlotsOf(table[s := id], k)| == |SlotsOf(table, k)| + if k == id then 1 else 0
  {
    if k == id {
      assert s !in SlotsOf(table, k);
      assert SlotsOf(table[s := id], k) == SlotsOf(table, k) + {s};
    } else {
      assert SlotsOf(table[s := id], k) == SlotsOf(table, k);
    }
  }

  lemma SlotsLess(table: map<Slot, Id>, s: Slot, k: Id)
    requires s in table
    ensures |SlotsOf(table - {s}, k)| == |SlotsOf(table, k)| - if k == table[s] then 1 else 0
  {
    if k == table[s] {
      assert s in SlotsOf(table, k);
      assert SlotsOf(table - {s}, k) == SlotsOf(table, k) - {s};
    } else {
      assert SlotsOf(table - {s}, k) == SlotsOf(table, k);
    }
  }

  lemma NewUnslotted(p: Placement, t: Tables, s: Slot)
    requires NewOk(p, t) && s in t.new_ && t.new_[s] in t.mapInfo
    ensures NewOk(p, Unslotted(t, s))
  {
    var u := Unslotted(t, s);
    forall r | r in u.new_ ensures NewSlotOk(p, u, r) {
      assert NewSlotOk(p, t, r);
    }
    forall id | id in u.mapInfo ensures RefsOk(u, id) {
      assert RefsOk(t, id);
      SlotsLess(t.new_, s, id);
    }
  }

  lemma NewSlotted(p: Placement, t: Tables, s: Slot, id: Id)
    requires NewOk(p, t) && s !in t.new_ && id in t.mapInfo && !t.mapInfo[id].inTried
    requires s.bucket < NEW_BUCKET_COUNT && s == NewSlot(p, t.mapInfo[id].addr, s.bucket)
    ensures NewOk(p, Slotted(t, s, id))
  {
    var u := Slotted(t, s, id);
    forall r | r in u.new_ ensures NewSlotOk(p, u, r) {
      assert r != s ==> NewSlotOk(p, t, r);
    }
    forall k | k in u.mapInfo ensures RefsOk(u, k) {
      assert RefsOk(t, k);
      SlotsMore(t.new_, s, id, k);
    }
  }

  lemma SlotOwner(p: Placement, t: Tables, special: set<Id>, s: Slot)
    requires NewOk(p, t) && EntriesOk(t, special) && s in t.new_
    ensures t.new_[s] in t.mapInfo && t.new_[s] !in special && !t.mapInfo[t.new_[s]].inTried
    ensures 1 <= t.mapInfo[t.new_[s]].refCount <= NEW_BUCKETS_PER_ADDRESS
  {
    assert NewSlotOk(p, t, s) && RefsOk(t, t.new_[s]);
    assert s in SlotsOf(t.new_, t.new_[s]);
    EntryAt(t, special, t.new_[s]);
  }

  /** Taking a counted entry out of a slot may leave it loose. */
  lemma KeepsUnslotted(p: Placement, t: Tables, loose: set<Id>, limbo: set<Id>, s: Slot)
    requires Inv(p, t, loose, limbo) && s in t.new_
    ensures var id := t.new_[s];
            && id in t.mapInfo && id !in loose + limbo && t.mapInfo[id].refCount > 0
            && var u := Unslotted(t, s);
               Inv(p, u, if u.mapInfo[id].refCount == 0 then loose + {id} else loose, limbo) && Evolves(t, u)
  {
    hide CountsOk, IndexOk, TriedOk, NewOk, EntriesOk;
    var id := t.new_[s];
    SlotOwner(p, t, loose + limbo, s);
    EntryAt(t, loose + limbo, id);
    var u := Unslotted(t, s);
    var loose' := if u.mapInfo[id].refCount == 0 then loose + {id} else loose;
    IndexSame(t, u);
    TriedSame(p, t, u);
    NewUnslotted(p, t, s);
    EntriesSame(t, u, loose + limbo, loose' + limbo, id);
    CountsSame(t, u, limbo);
  }

  lemma KeepsSlotted(p: Placement, t: Tables, loose: set<Id>, limbo: set<Id>, s: Slot, id: Id)
    requires Inv(p, t, loose, limbo) && s !in t.new_ && id in t.mapInfo && id !in limbo && !t.mapInfo[id].inTried
    requires t.mapInfo[id].refCount < NEW_BUCKETS_PER_ADDRESS
    requires s.bucket < NEW_BUCKET_COUNT && s == NewSlot(p, t.mapInfo[id].addr, s.bucket)
    ensures Inv(p, Slotted(t, s, id), loose - {id}, limbo) && Evolves(t, Slotted(t, s, id))
  {
    hide CountsOk, IndexOk, TriedOk, NewOk, EntriesOk;
    EntryAt(t, loose + limbo, id);
    var u := Slotted(t, s, id);
    IndexSame(t, u);
    TriedSame(p, t, u);
    NewSlotted(p, t, s, id);
    EntriesSame(t, u, loose + limbo, loose - {id} + limbo, id);
    CountsSame(t, u, limbo);
  }

  lemma InNoSlot(t: Tables, id: Id)
    requires id in t.mapInfo && RefsOk(t, id) && t.mapInfo[id].refCount == 0
    ensures SlotsOf(t.new_, id) == {}
  {
  }

  lemma TriedOwner(p: Placement, t: Tables, special: set<Id>, s: Slot)
    requires TriedOk(p, t) && NewOk(p, t) && EntriesOk(t, special) && s in t.tried
    ensures var id := t.tried[s];
            && id in t.mapInfo && id !in special && t.mapInfo[id].inTried && t.mapInfo[id].refCount == 0
            && t.mapInfo[id].lastSuccess != 0 && EntryOk(t.mapInfo[id].(inTried := false), true) && SlotsOf(t.new_, id) == {}
  {
    assert TriedSlotOk(p, t, s);
    var id := t.tried[s];
    EntryAt(t, special, id);
    assert RefsOk(t, id);
    InNoSlot(t, id);
  }

  lemma TriedUntried(p: Placement, t: Tables, s: Slot)
    requires TriedOk(p, t) && s in t.tried && t.tried[s] in t.mapInfo
    ensures TriedOk(p, Untried(t, s))
  {
    var u := Untried(t, s);
    forall r | r in u.tried ensures TriedSlotOk(p, u, r) {
      assert TriedSlotOk(p, t, r) && TriedSlotOk(p, t, s);
    }
    forall id | id in u.mapInfo ensures TriedIdOk(p, u, id) {
      assert TriedIdOk(p, t, id);
    }
  }

  lemma KeepsUntried(p: Placement, t: Tables, loose: set<Id>, limbo: set<Id>, s: Slot)
    requires Inv(p, t, loose, limbo) && s in t.tried
    ensures var id := t.tried[s];
            && id in t.mapInfo && id !in loose + limbo && t.mapInfo[id].lastSuccess != 0
            && Inv(p, Untried(t, s), loose, limbo + {id}) && IdsKept(t, Untried(t, s))
  {
    hide CountsOk, IndexOk, TriedOk, NewOk, EntriesOk;
    var id := t.tried[s];
    TriedOwner(p, t, loose + limbo, s);
    EntryAt(t, loose + limbo, id);
    var u := Untried(t, s);
    IndexSame(t, u);
    TriedUntried(p, t, s);
    NewSame(p, t, u);
    EntriesSame(t, u, loose + limbo, loose + (limbo + {id}), id);
    CountsUntried(t, limbo, s);
  }

  lemma CountsUntried(t: Tables, limbo: set<Id>, s: Slot)
    requires CountsOk(t, limbo) && s in t.tried && t.tried[s] in t.mapInfo && t.mapInfo[t.tried[s]].inTried
    ensures CountsOk(Untried(t, s), limbo + {t.tried[s]})
  {
    hide CountsOk;
    var id := t.tried[s];
    CountsChange(t, Untried(t, s), limbo, limbo + {id}, id, t.mapInfo[id].addr.network);
  }

  lemma CountsTried(t: Tables, limbo: set<Id>, s: Slot, id: Id)
    requires CountsOk(t, limbo) && id in t.mapInfo && id in limbo && !t.mapInfo[id].inTried
    ensures CountsOk(Tried(t, s, id), limbo - {id})
  {
    hide CountsOk;
    CountsChange(t, Tried(t, s, id), limbo, limbo - {id}, id, t.mapInfo[id].addr.network);
  }

  lemma TriedTried(p: Placement, t: Tables, s: Slot, id: Id)
    requires TriedOk(p, t) && s !in t.tried && id in t.mapInfo && !t.mapInfo[id].inTried && s == TriedSlot(p, t.mapInfo[id].addr)
    ensures TriedOk(p, Tried(t, s, id))
  {
    var u := Tried(t, s, id);
    forall r | r in u.tried ensures TriedSlotOk(p, u, r) {
      assert r != s ==> TriedSlotOk(p, t, r);
    }
    forall k | k in u.mapInfo ensures TriedIdOk(p, u, k) {
      assert TriedIdOk(p, t, k);
    }
  }

  lemma KeepsTried(p: Placement, t: Tables, loose: set<Id>, limbo: set<Id>, s: Slot, id: Id)
    requires Inv(p, t, loose, limbo) && id in limbo && s !in t.tried
    requires id in t.mapInfo && s == TriedSlot(p, t.mapInfo[id].addr) && t.mapInfo[id].lastSuccess != 0
    ensures Inv(p, Tried(t, s, id), loose, limbo - {id}) && IdsKept(t, Tried(t, s, id))
  {
    hide CountsOk, IndexOk, TriedOk, NewOk, EntriesOk;
    EntryAt(t, loose + limbo, id);
    assert SlotsOf(t.new_, id) == {} by {
      NoRefs(p, t, id);
    }
    var u := Tried(t, s, id);
    IndexSame(t, u);
    TriedTried(p, t, s, id);
    NewSame(p, t, u);
    EntriesSame(t, u, loose + limbo, loose + (limbo - {id}), id);
    CountsTried(t, limbo, s, id);
  }

  lemma NoRefs(p: Placement, t: Tables, id: Id)
    requires NewOk(p, t) && id in t.mapInfo && t.mapInfo[id].refCount == 0
    ensures SlotsOf(t.new_, id) == {}
  {
    assert RefsOk(t, id);
    InNoSlot(t, id);
  }

  // ----- creating and deleting entries

  /** An entry was added to the index. */
  ghost predicate Extended(t: Tables, u: Tables, addr: Service, info: AddrInfo) {
    && info.addr == addr && info.randomPos == |t.random| && u.idCount == t.idCount + 1
    && u.mapInfo == t.mapInfo[t.idCount := info] && u.mapAddr == t.mapAddr[addr := t.idCount] && u.random == t.random + [t.idCount]
  }

  lemma IndexCreated(t: Tables, addr: Service, source: Source, time: int, services: set<nat>)
    requires IndexOk(t) && addr !in t.mapAddr
    ensures t.idCount !in t.mapInfo && IndexOk(Created(t, addr, source, time, services))
  {
    IndexExtended(t, Created(t, addr, source, time, services), addr,
                  AddrInfo(addr, source, time, services, 0, 0, 0, 0, 0, false, |t.random|));
  }

  lemma IndexExtended(t: Tables, u: Tables, addr: Service, info: AddrInfo)
    requires IndexOk(t) && addr !in t.mapAddr && Extended(t, u, addr, info)
    ensures t.idCount !in t.mapInfo && IndexOk(u)
  {
    hide Extended;
    NewId(t);
    ExtendedSize(t, u, addr, info);
    forall id | id in u.mapInfo ensures Indexed(u, id) {
      ExtendedIndexed(t, u, addr, info, id);
    }
    forall a | a in u.mapAddr ensures AddrIndexed(u, a) {
      ExtendedAddr(t, u, addr, info, a);
    }
    forall i: nat | i < |u.random| ensures RandomIndexed(u, i) {
      ExtendedRandom(t, u, addr, info, i);
    }
  }

  lemma NewId(t: Tables)
    requires IndexOk(t)
    ensures t.idCount !in t.mapInfo
  {
    assert t.idCount in t.mapInfo ==> Indexed(t, t.idCount);
  }

  lemma ExtendedSize(t: Tables, u: Tables, addr: Service, info: AddrInfo)
    requires IndexOk(t) && t.idCount !in t.mapInfo && Extended(t, u, addr, info)
    ensures |u.random| == |u.mapInfo|
  {
    assert u.mapInfo.Keys == t.mapInfo.Keys + {t.idCount} && |u.mapInfo| == |u.mapInfo.Keys|;
  }

  lemma ExtendedIndexed(t: Tables, u: Tables, addr: Service, info: AddrInfo, id: Id)
    requires IndexOk(t) && t.idCount !in t.mapInfo && addr !in t.mapAddr && Extended(t, u, addr, info) && id in u.mapInfo
    ensures Indexed(u, id)
  {
    assert id != t.idCount ==> Indexed(t, id);
  }

  lemma ExtendedAddr(t: Tables, u: Tables, addr: Service, info: AddrInfo, a: Service)
    requires IndexOk(t) && t.idCount !in t.mapInfo && Extended(t, u, addr, info) && a in u.mapAddr
    ensures AddrIndexed(u, a)
  {
    assert a != addr ==> AddrIndexed(t, a);
  }

  lemma ExtendedRandom(t: Tables, u: Tables, addr: Service, info: AddrInfo, i: nat)
    requires IndexOk(t) && t.idCount !in t.mapInfo && Extended(t, u, addr, info) && i < |u.random|
    ensures RandomIndexed(u, i)
  {
    assert i < |t.random| ==> RandomIndexed(t, i);
  }

  lemma TablesCreated(p: Placement, t: Tables, addr: Service, source: Source, time: int, services: set<nat>)
    requires TriedOk(p, t) && NewOk(p, t) && t.idCount !in t.mapInfo
    ensures var u := Created(t, addr, source, time, services); TriedOk(p, u) && NewOk(p, u)
  {
    var u, new_ := Created(t, addr, source, time, services), t.idCount;
    forall s | s in u.tried ensures TriedSlotOk(p, u, s) {
      assert TriedSlotOk(p, t, s);
    }
    forall id | id in u.mapInfo ensures TriedIdOk(p, u, id) {
      assert id != new_ ==> TriedIdOk(p, t, id);
    }
    forall s | s in u.new_ ensures NewSlotOk(p, u, s) {
      assert NewSlotOk(p, t, s);
    }
    forall id | id in u.mapInfo ensures RefsOk(u, id) {
      if id != new_ {
        assert RefsOk(t, id);
      } else {
        assert SlotsOf(u.new_, id) == {} by {
          forall s | s in t.new_ ensures t.new_[s] != id {
            assert NewSlotOk(p, t, s);
          }
        }
      }
    }
  }

  lemma KeepsCreated(p: Placement, t: Tables, addr: Service, source: Source, time: int, services: set<nat>)
    requires Consistent(p, t) && addr !in t.mapAddr
    ensures t.idCount !in t.mapInfo
    ensures var u := Created(t, addr, source, time, services); Inv(p, u, {t.idCount}, {}) && Evolves(t, u)
  {
    hide CountsOk, IndexOk, TriedOk, NewOk, EntriesOk;
    var u, id := Created(t, addr, source, time, services), t.idCount;
    IndexCreated(t, addr, source, time, services);
    TablesCreated(p, t, addr, source, time, services);
    var none: set<Id> := {};
    assert none + none == none && {id} + none == {id};
    EntriesCreated(t, u, id);
    CountsCreated(t, addr, source, time, services);
  }

  lemma CountsCreated(t: Tables, addr: Service, source: Source, time: int, services: set<nat>)
    requires CountsOk(t, {}) && t.idCount !in t.mapInfo
    ensures CountsOk(Created(t, addr, source, time, services), {})
  {
    hide CountsOk;
    CountsChange(t, Created(t, addr, source, time, services), {}, {}, t.idCount, addr.network);
  }

  lemma EntriesCreated(t: Tables, u: Tables, id: Id)
    requires EntriesOk(t, {}) && u.mapInfo.Keys == t.mapInfo.Keys + {id} && EntryOk(u.mapInfo[id], true) && id !in t.mapInfo
    requires forall k | k in t.mapInfo :: u.mapInfo[k] == t.mapInfo[k]
    ensures EntriesOk(u, {id})
  {
    forall k | k in u.mapInfo ensures EntryAtOk(u, {id}, k) {
      assert k != id ==> EntryAtOk(t, {}, k);
    }
  }

  lemma IndexSwapped(t: Tables, i: nat, j: nat)
    requires IndexOk(t) && i < |t.random| && j < |t.random|
    ensures t.random[i] in t.mapInfo && t.random[j] in t.mapInfo && IndexOk(Swapped(t, i, j))
  {
    hide Swapped;
    assert RandomIndexed(t, i) && RandomIndexed(t, j);
    SwappedReorders(t, i, j);
    SwappedAt(t, i, j);
    var u := Swapped(t, i, j);
    assert |u.mapInfo| == |u.mapInfo.Keys| == |t.mapInfo.Keys|;
    forall id | id in u.mapInfo ensures Indexed(u, id) {
      SwappedIndexed(t, i, j, id);
    }
    forall a | a in u.mapAddr ensures AddrIndexed(u, a) {
      assert AddrIndexed(t, a);
    }
    forall k: nat | k < |u.random| ensures RandomIndexed(u, k) {
      SwappedRandom(t, i, j, k);
    }
  }

  lemma SwappedIndexed(t: Tables, i: nat, j: nat, id: Id)
    requires IndexOk(t) && i < |t.random| && j < |t.random| && RandomIndexed(t, i) && RandomIndexed(t, j) && id in t.mapInfo
    ensures id in Swapped(t, i, j).mapInfo && Indexed(Swapped(t, i, j), id)
  {
    hide Swapped;
    assert Indexed(t, id);
    SwappedReorders(t, i, j);
    SwappedAt(t, i, j);
    SwappedPosition(t, i, j, id);
  }

  lemma SwappedRandom(t: Tables, i: nat, j: nat, k: nat)
    requires IndexOk(t) && i < |t.random| && j < |t.random| && RandomIndexed(t, i) && RandomIndexed(t, j) && k < |t.random|
    ensures k < |Swapped(t, i, j).random| && RandomIndexed(Swapped(t, i, j), k)
  {
    hide Swapped;
    assert RandomIndexed(t, Other(i, j, k));
    SwappedAt(t, i, j);
    SwappedPosition(t, i, j, t.random[Other(i, j, k)]);
  }

  /** Where a position in the random order moves. */
  function Other(i: nat, j: nat, k: nat): nat {
    if k == i then j else if k == j then i else k
  }

  lemma SwappedAt(t: Tables, i: nat, j: nat)
    requires i < |t.random| && j < |t.random| && t.random[i] in t.mapInfo && t.random[j] in t.mapInfo
    ensures var u := Swapped(t, i, j);
            && u.mapAddr == t.mapAddr && |u.random| == |t.random|
            && forall k: nat | k < |t.random| :: u.random[k] == t.random[Other(i, j, k)]
  {
  }

  lemma SwappedPosition(t: Tables, i: nat, j: nat, id: Id)
    requires i < |t.random| && j < |t.random| && id in t.mapInfo
    requires RandomIndexed(t, i) && RandomIndexed(t, j)
    requires 0 <= t.mapInfo[id].randomPos < |t.random| && t.random[t.mapInfo[id].randomPos] == id
    ensures id in Swapped(t, i, j).mapInfo && Swapped(t, i, j).mapInfo[id].randomPos == Other(i, j, t.mapInfo[id].randomPos)
  {
  }

  /** The entries agree in all but their positions in the random order. */
  ghost predicate OnlyReordered(t: Tables, u: Tables) {
    && SameKeys(t, u) && u.tried == t.tried && u.new_ == t.new_
    && u.nNew == t.nNew && u.nTried == t.nTried && u.counts == t.counts && u.idCount == t.idCount
    && forall k | k in t.mapInfo :: u.mapInfo[k] == t.mapInfo[k].(randomPos := u.mapInfo[k].randomPos)
  }

  lemma SwappedReorders(t: Tables, i: nat, j: nat)
    requires i < |t.random| && j < |t.random| && t.random[i] in t.mapInfo && t.random[j] in t.mapInfo
    ensures OnlyReordered(t, Swapped(t, i, j))
  {
    var u := Swapped(t, i, j);
    if i == j {
      forall k | k in t.mapInfo ensures u.mapInfo[k] == t.mapInfo[k].(randomPos := u.mapInfo[k].randomPos) {
        Repositioned(t.mapInfo[k], 0);
      }
    } else {
      forall k | k in t.mapInfo ensures u.mapInfo[k] == t.mapInfo[k].(randomPos := u.mapInfo[k].randomPos) {
        SwappedEntry(t, i, j, k);
      }
    }
  }

  lemma SwappedEntry(t: Tables, i: nat, j: nat, k: Id)
    requires i < |t.random| && j < |t.random| && t.random[i] in t.mapInfo && t.random[j] in t.mapInfo && k in t.mapInfo && i != j
    ensures var u := Swapped(t, i, j); u.mapInfo[k] == t.mapInfo[k].(randomPos := u.mapInfo[k].randomPos)
  {
    Repositioned(t.mapInfo[k], i);
    Repositioned(t.mapInfo[k], j);
  }

  lemma Repositioned(info: AddrInfo, pos: int)
    ensures info.(randomPos := pos).randomPos == pos && info == info.(randomPos := info.randomPos)
    ensures info.(randomPos := pos).(randomPos := info.randomPos) == info
  {
  }

  lemma ReorderedKeeps(p: Placement, t: Tables, u: Tables, special: set<Id>, limbo: set<Id>)
    requires OnlyReordered(t, u) && EntriesOk(t, special) && TriedOk(p, t) && NewOk(p, t) && CountsOk(t, limbo)
    ensures EntriesOk(u, special) && TriedOk(p, u) && NewOk(p, u) && CountsOk(u, limbo) && Evolves(t, u)
  {
    hide CountsOk, TriedOk, NewOk;
    TriedSame(p, t, u);
    NewSame(p, t, u);
    CountsSame(t, u, limbo);
    forall k | k in u.mapInfo ensures EntryAtOk(u, special, k) {
      assert EntryAtOk(t, special, k);
    }
  }

  lemma KeepsSwapped(p: Placement, t: Tables, loose: set<Id>, limbo: set<Id>, i: nat, j: nat)
    requires Inv(p, t, loose, limbo) && i < |t.random| && j < |t.random|
    ensures t.random[i] in t.mapInfo && t.random[j] in t.mapInfo
    ensures Inv(p, Swapped(t, i, j), loose, limbo) && Evolves(t, Swapped(t, i, j))
  {
    hide CountsOk, IndexOk, TriedOk, NewOk, EntriesOk, Swapped, OnlyReordered;
    IndexSwapped(t, i, j);
    SwappedReorders(t, i, j);
    ReorderedKeeps(p, t, Swapped(t, i, j), loose + limbo, limbo);
  }

  lemma IndexDropped(t: Tables, id: Id)
    requires IndexOk(t) && id in t.mapInfo && t.random != [] && t.random[|t.random| - 1] == id
    ensures IndexOk(Dropped(t, id))
  {
    var u := Dropped(t, id);
    assert Indexed(t, id);
    assert u.mapInfo.Keys == t.mapInfo.Keys - {id} && |u.mapInfo| == |u.mapInfo.Keys|;
    assert RandomIndexed(t, |t.random| - 1);
    forall k | k in u.mapInfo ensures Indexed(u, k) {
      assert Indexed(t, k);
    }
    forall a | a in u.mapAddr ensures AddrIndexed(u, a) {
      assert AddrIndexed(t, a);
    }
    forall i: nat | i < |u.random| ensures RandomIndexed(u, i) {
      assert RandomIndexed(t, i);
    }
  }

  lemma TablesDropped(p: Placement, t: Tables, id: Id)
    requires TriedOk(p, t) && NewOk(p, t) && id in t.mapInfo && t.random != [] && !t.mapInfo[id].inTried && t.mapInfo[id].refCount == 0
    ensures TriedOk(p, Dropped(t, id)) && NewOk(p, Dropped(t, id))
  {
    var u := Dropped(t, id);
    NoRefs(p, t, id);
    forall s | s in u.tried ensures TriedSlotOk(p, u, s) {
      assert TriedSlotOk(p, t, s);
    }
    forall k | k in u.mapInfo ensures TriedIdOk(p, u, k) {
      assert TriedIdOk(p, t, k);
    }
    forall s | s in u.new_ ensures NewSlotOk(p, u, s) {
      assert NewSlotOk(p, t, s) && (t.new_[s] == id ==> s in SlotsOf(t.new_, id));
    }
    forall k | k in u.mapInfo ensures RefsOk(u, k) {
      assert RefsOk(t, k);
    }
  }

  lemma EntriesDropped(t: Tables, u: Tables, special: set<Id>, id: Id)
    requires EntriesOk(t, special) && u.mapInfo == t.mapInfo - {id}
    ensures EntriesOk(u, special - {id})
  {
    forall k | k in u.mapInfo ensures EntryAtOk(u, special - {id}, k) {
      assert EntryAtOk(t, special, k);
    }
  }

  lemma KeepsDropped(p: Placement, t: Tables, loose: set<Id>, limbo: set<Id>, id: Id)
    requires Inv(p, t, loose, limbo) && id in loose && t.random != [] && t.random[|t.random| - 1] == id
    ensures id in t.mapInfo && Inv(p, Dropped(t, id), loose - {id}, limbo) && Evolves(t, Dropped(t, id))
  {
    hide CountsOk, IndexOk, TriedOk, NewOk, EntriesOk;
    EntryAt(t, loose + limbo, id);
    var u := Dropped(t, id);
    IndexDropped(t, id);
    TablesDropped(p, t, id);
    EntriesDropped(t, u, loose + limbo, id);
    assert loose + limbo - {id} == loose - {id} + limbo;
    CountsDropped(t, limbo, id);
  }

  lemma CountsDropped(t: Tables, limbo: set<Id>, id: Id)
    requires CountsOk(t, limbo) && id in t.mapInfo && id !in limbo && !t.mapInfo[id].inTried && t.random != []
    ensures CountsOk(Dropped(t, id), limbo)
  {
    hide CountsOk;
    CountsChange(t, Dropped(t, id), limbo, limbo, id, t.mapInfo[id].addr.network);
  }
}
