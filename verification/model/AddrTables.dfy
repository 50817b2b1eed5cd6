/** The tables of the address manager as values: which invariant ties them together, and what each small
    change to them does to it. */
module AddrTables {
  /** Identifies an address; the source's -1 is an empty slot. */
  type Id = nat

  type Source = nat

  /** A network address and port, with what its address tells. */
  datatype Service = Service(ip: Source, port: nat, network: nat, isRoutable: bool, isValid: bool)

  /** A position in a table of buckets. */
  datatype Slot = Slot(bucket: nat, position: nat)

  const TRIED_BUCKET_COUNT: nat := 256
  const NEW_BUCKET_COUNT: nat := 1024
  const BUCKET_SIZE: nat := 64
  const NEW_BUCKETS_PER_ADDRESS := 8

  /** The keyed hashes that decide where an address goes. */
  datatype Placement = Placement(
    triedHash: Service -> nat, newHash: (Service, Source) -> nat, positionHash: (Service, bool, nat) -> nat)

  function TriedSlot(p: Placement, a: Service): Slot {
    var bucket := p.triedHash(a) % TRIED_BUCKET_COUNT;
    Slot(bucket, p.positionHash(a, false, bucket) % BUCKET_SIZE)
  }

  function NewBucket(p: Placement, a: Service, source: Source): nat {
    p.newHash(a, source) % NEW_BUCKET_COUNT
  }

  function NewSlot(p: Placement, a: Service, bucket: nat): Slot {
    Slot(bucket, p.positionHash(a, true, bucket) % BUCKET_SIZE)
  }

  datatype AddrInfo = AddrInfo(
    addr: Service, source: Source, time: int, services: set<nat>,
    lastTry: int, lastCountAttempt: int, lastSuccess: int, attempts: int,
    refCount: int, inTried: bool, randomPos: int)

  datatype Counts = Counts(inNew: int, inTried: int)

  datatype Tables = Tables(
    idCount: Id, mapInfo: map<Id, AddrInfo>, mapAddr: map<Service, Id>, random: seq<Id>,
    nTried: int, tried: map<Slot, Id>, nNew: int, new_: map<Slot, Id>, counts: map<nat, Counts>)

  const EMPTY_TABLES := Tables(0, map[], map[], [], 0, map[], 0, map[], map[])

  // ----- the invariant
  // Between operations every entry is in exactly one table.  Within one, an entry may be "loose": counted as
  // new, but in no slot; or in "limbo": in no slot and not counted.

  function CountOf(t: Tables, network: nat): Counts {
    if network in t.counts then t.counts[network] else Counts(0, 0)
  }

  ghost function NewIds(t: Tables, limbo: set<Id>): set<Id> {
    set id | id in t.mapInfo && !t.mapInfo[id].inTried && id !in limbo
  }

  ghost function TriedIds(t: Tables): set<Id> {
    set id | id in t.mapInfo && t.mapInfo[id].inTried
  }

  ghost function Within(t: Tables, ids: set<Id>, network: nat): set<Id> {
    set id | id in ids && id in t.mapInfo && t.mapInfo[id].addr.network == network
  }

  ghost function SlotsOf(table: map<Slot, Id>, id: Id): set<Slot> {
    set s | s in table && table[s] == id
  }

  /** An entry is found by its address and by its position in the random order. */
  ghost predicate Indexed(t: Tables, id: Id)
    requires id in t.mapInfo
  {
    var info := t.mapInfo[id];
    && id < t.idCount
    && info.addr in t.mapAddr && t.mapAddr[info.addr] == id
    && 0 <= info.randomPos < |t.random| && t.random[info.randomPos] == id
  }

  ghost predicate AddrIndexed(t: Tables, a: Service)
    requires a in t.mapAddr
  {
    t.mapAddr[a] in t.mapInfo && t.mapInfo[t.mapAddr[a]].addr == a
  }

  ghost predicate RandomIndexed(t: Tables, i: nat)
    requires i < |t.random|
  {
    t.random[i] in t.mapInfo && t.mapInfo[t.random[i]].randomPos == i
  }

  ghost predicate IndexOk(t: Tables) {
    && (forall id {:trigger Indexed(t, id)} | id in t.mapInfo :: Indexed(t, id))
    && (forall a {:trigger AddrIndexed(t, a)} | a in t.mapAddr :: AddrIndexed(t, a))
    && (forall i: nat {:trigger RandomIndexed(t, i)} | i < |t.random| :: RandomIndexed(t, i))
    && |t.random| == |t.mapInfo|
  }

  ghost predicate EntryOk(info: AddrInfo, special: bool) {
    && info.lastTry >= 0 && info.lastSuccess >= 0
    && if info.inTried then info.lastSuccess != 0 && info.refCount == 0 && !special
       else if special then info.refCount == 0
       else 1 <= info.refCount <= NEW_BUCKETS_PER_ADDRESS
  }

  ghost predicate EntryAtOk(t: Tables, special: set<Id>, id: Id)
    requires id in t.mapInfo
  {
    EntryOk(t.mapInfo[id], id in special)
  }

  ghost predicate EntriesOk(t: Tables, special: set<Id>) {
    && special <= t.mapInfo.Keys
    && forall id {:trigger EntryAtOk(t, special, id)} | id in t.mapInfo :: EntryAtOk(t, special, id)
  }

  ghost predicate TriedSlotOk(p: Placement, t: Tables, s: Slot)
    requires s in t.tried
  {
    t.tried[s] in t.mapInfo && t.mapInfo[t.tried[s]].inTried && TriedSlot(p, t.mapInfo[t.tried[s]].addr) == s
  }

  ghost predicate TriedIdOk(p: Placement, t: Tables, id: Id)
    requires id in t.mapInfo
  {
    t.mapInfo[id].inTried ==>
      TriedSlot(p, t.mapInfo[id].addr) in t.tried && t.tried[TriedSlot(p, t.mapInfo[id].addr)] == id
  }

  /** A tried entry is in exactly the slot that its address hashes to. */
  ghost predicate TriedOk(p: Placement, t: Tables) {
    && (forall s {:trigger TriedSlotOk(p, t, s)} | s in t.tried :: TriedSlotOk(p, t, s))
    && (forall id {:trigger TriedIdOk(p, t, id)} | id in t.mapInfo :: TriedIdOk(p, t, id))
  }

  ghost predicate NewSlotOk(p: Placement, t: Tables, s: Slot)
    requires s in t.new_
  {
    && t.new_[s] in t.mapInfo && !t.mapInfo[t.new_[s]].inTried
    && s.bucket < NEW_BUCKET_COUNT && s == NewSlot(p, t.mapInfo[t.new_[s]].addr, s.bucket)
  }

  ghost predicate RefsOk(t: Tables, id: Id)
    requires id in t.mapInfo
  {
    t.mapInfo[id].refCount == |SlotsOf(t.new_, id)|
  }

  /** The new table holds new entries at hashed positions, and the reference counts count its slots. */
  ghost predicate NewOk(p: Placement, t: Tables) {
    && (forall s {:trigger NewSlotOk(p, t, s)} | s in t.new_ :: NewSlotOk(p, t, s))
    && (forall id {:trigger RefsOk(t, id)} | id in t.mapInfo :: RefsOk(t, id))
  }

  ghost predicate CountsOk(t: Tables, limbo: set<Id>) {
    && t.nNew == |NewIds(t, limbo)| && t.nTried == |TriedIds(t)|
    && forall network :: CountOf(t, network) ==
         Counts(|Within(t, NewIds(t, limbo), network)|, |Within(t, TriedIds(t), network)|)
  }

  ghost predicate Inv(p: Placement, t: Tables, loose: set<Id>, limbo: set<Id>) {
    && loose !! limbo
    && IndexOk(t) && EntriesOk(t, loose + limbo) && TriedOk(p, t) && NewOk(p, t) && CountsOk(t, limbo)
  }

  ghost predicate Consistent(p: Placement, t: Tables) {
    Inv(p, t, {}, {})
  }

  /** Ids stay with their addresses, and are not used again. */
  ghost predicate IdsKept(t: Tables, u: Tables) {
    && t.idCount <= u.idCount
    && forall id | id in u.mapInfo && id < t.idCount :: id in t.mapInfo && u.mapInfo[id].addr == t.mapInfo[id].addr
  }

  /** Also, tried slots stay occupied. */
  ghost predicate Evolves(t: Tables, u: Tables) {
    IdsKept(t, u) && t.tried.Keys <= u.tried.Keys
  }

  /** What is known of an address is the same; where it is may differ. */
  ghost predicate SameStats(a: AddrInfo, b: AddrInfo) {
    b == a.(refCount := b.refCount, inTried := b.inTried, randomPos := b.randomPos)
  }

  /** Entries only went away, or moved. */
  ghost predicate StatsKept(t: Tables, u: Tables) {
    forall id | id in u.mapInfo :: id in t.mapInfo && SameStats(t.mapInfo[id], u.mapInfo[id])
  }

  lemma EmptyConsistent(p: Placement)
    ensures Consistent(p, EMPTY_TABLES)
  {
    var t := EMPTY_TABLES;
    assert NewIds(t, {}) == {} && TriedIds(t) == {};
    forall network ensures Within(t, {}, network) == {} {
    }
  }

  lemma EvolvesTransitive(t: Tables, u: Tables, v: Tables)
    requires Evolves(t, u) && Evolves(u, v)
    ensures Evolves(t, v)
  {
    IdsKeptTransitive(t, u, v);
  }

  lemma IdsKeptTransitive(t: Tables, u: Tables, v: Tables)
    requires IdsKept(t, u) && IdsKept(u, v)
    ensures IdsKept(t, v)
  {
  }
}
