/** The address manager's own consistency check: exactly what it finds, and what it does not look at. */
module AddrChecks {
  import opened AddrTables
  import opened AddrSteps
  import opened AddrMoves
  import opened AddrMans

  /** What the first loop collects: the tried ids, the reference counts of the new ones, and the counts per
      network. */
  datatype Collected = Collected(tried: set<Id>, refs: map<Id, int>, counts: map<nat, Counts>)

  ghost function Networks(t: Tables, ids: set<Id>): set<nat> {
    set id | id in ids && id in t.mapInfo :: t.mapInfo[id].addr.network
  }

  ghost predicate CountsCollected(t: Tables, done: set<Id>, counts: map<nat, Counts>) {
    && counts.Keys == Networks(t, done)
    && forall n | n in counts :: counts[n] == LocalCounts(t, done, n)
  }

  /** The entries of a network among some. */
  ghost function LocalCounts(t: Tables, done: set<Id>, n: nat): Counts {
    Counts(|Within(t, NewIds(t, {}) * done, n)|, |Within(t, TriedIds(t) * done, n)|)
  }

  ghost predicate CollectedOk(t: Tables, done: set<Id>, c: Collected) {
    && c.tried == TriedIds(t) * done
    && c.refs.Keys == NewIds(t, {}) * done && (forall id | id in c.refs :: c.refs[id] == t.mapInfo[id].refCount)
    && CountsCollected(t, done, c.counts)
  }

  function Collect(t: Tables, c: Collected, id: Id): Collected
    requires id in t.mapInfo
  {
    var info := t.mapInfo[id];
    var n := info.addr.network;
    var k := if n in c.counts then c.counts[n] else Counts(0, 0);
    if info.inTried
    then Collected(c.tried + {id}, c.refs, c.counts[n := Counts(k.inNew, k.inTried + 1)])
    else Collected(c.tried, c.refs[id := info.refCount], c.counts[n := Counts(k.inNew + 1, k.inTried)])
  }

  lemma CollectStep(t: Tables, done: set<Id>, c: Collected, id: Id)
    requires CollectedOk(t, done, c) && id in t.mapInfo && id !in done
    ensures CollectedOk(t, done + {id}, Collect(t, c, id))
  {
    hide CountsCollected;
    CollectSets(t, done, id);
    CollectCounts(t, done, c, id);
  }

  lemma CollectCounts(t: Tables, done: set<Id>, c: Collected, id: Id)
    requires CountsCollected(t, done, c.counts) && id in t.mapInfo && id !in done
    ensures CountsCollected(t, done + {id}, Collect(t, c, id).counts)
  {
    hide LocalCounts;
    var d, info := Collect(t, c, id), t.mapInfo[id];
    assert Networks(t, done + {id}) == Networks(t, done) + {info.addr.network};
    forall n | n in d.counts ensures d.counts[n] == LocalCounts(t, done + {id}, n) {
      LocalStep(t, done, id, n);
      if n !in c.counts {
        NoneLocal(t, done, n);
      }
    }
  }

  lemma LocalStep(t: Tables, done: set<Id>, id: Id, n: nat)
    requires id in t.mapInfo && id !in done
    ensures var here, c := t.mapInfo[id].addr.network == n, LocalCounts(t, done, n);
            LocalCounts(t, done + {id}, n) ==
              Counts(c.inNew + One(here && !t.mapInfo[id].inTried), c.inTried + One(here && t.mapInfo[id].inTried))
  {
    CollectCount(t, NewIds(t, {}), done, id, n);
    CollectCount(t, TriedIds(t), done, id, n);
  }

  lemma NoneLocal(t: Tables, done: set<Id>, n: nat)
    requires n !in Networks(t, done)
    ensures LocalCounts(t, done, n) == Counts(0, 0)
  {
    NoneWithin(t, NewIds(t, {}) * done, done, n);
    NoneWithin(t, TriedIds(t) * done, done, n);
  }

  lemma CollectSets(t: Tables, done: set<Id>, id: Id)
    requires id in t.mapInfo
    ensures TriedIds(t) * (done + {id}) == TriedIds(t) * done + if t.mapInfo[id].inTried then {id} else {}
    ensures NewIds(t, {}) * (done + {id}) == NewIds(t, {}) * done + if t.mapInfo[id].inTried then {} else {id}
  {
  }

  lemma CollectCount(t: Tables, ids: set<Id>, done: set<Id>, id: Id, n: nat)
    requires id in t.mapInfo && id !in done
    ensures |Within(t, ids * (done + {id}), n)| == |Within(t, ids * done, n)| + One(id in ids && t.mapInfo[id].addr.network == n)
  {
    if id in ids && t.mapInfo[id].addr.network == n {
      assert Within(t, ids * (done + {id}), n) == Within(t, ids * done, n) + {id};
    } else {
      assert Within(t, ids * (done + {id}), n) == Within(t, ids * done, n);
    }
  }

  lemma NoneWithin(t: Tables, ids: set<Id>, done: set<Id>, n: nat)
    requires ids <= done && n !in Networks(t, done)
    ensures Within(t, ids, n) == {}
  {
    forall id | id in ids && id in t.mapInfo ensures t.mapInfo[id].addr.network != n {
      assert t.mapInfo[id].addr.network in Networks(t, done);
    }
  }

  /** The check of one entry. */
  function CheckEntry(t: Tables, id: Id): int
    requires id in t.mapInfo
  {
    var info := t.mapInfo[id];
    if info.inTried && info.lastSuccess == 0 then -1
    else if info.inTried && info.refCount != 0 then -2
    else if !info.inTried && (info.refCount < 0 || info.refCount > NEW_BUCKETS_PER_ADDRESS) then -3
    else if !info.inTried && info.refCount == 0 then -4
    else if info.addr !in t.mapAddr || t.mapAddr[info.addr] != id then -5
    else if info.randomPos < 0 || info.randomPos >= |t.random| || t.random[info.randomPos] != id then -14
    else if info.lastTry < 0 then -6
    else if info.lastSuccess < 0 then -8
    else 0
  }

  /** An entry is found by its address and by its position in the random order. */
  ghost predicate Found(t: Tables, id: Id)
    requires id in t.mapInfo
  {
    var info := t.mapInfo[id];
    && info.addr in t.mapAddr && t.mapAddr[info.addr] == id
    && 0 <= info.randomPos < |t.random| && t.random[info.randomPos] == id
  }

  ghost predicate AllFound(t: Tables) {
    forall id {:trigger Found(t, id)} | id in t.mapInfo :: Found(t, id)
  }

  lemma EntryChecked(t: Tables, id: Id)
    requires id in t.mapInfo
    ensures CheckEntry(t, id) == 0 <==> EntryAtOk(t, {}, id) && Found(t, id)
  {
  }

  method CheckEntries(t: Tables) returns (code: int, c: Collected)
    ensures code == 0 <==> EntriesOk(t, {}) && AllFound(t)
    ensures code == 0 ==> CollectedOk(t, t.mapInfo.Keys, c)
  {
    hide CollectedOk, Collect, CheckEntry, EntryAtOk, Found;
    code, c := 0, Collected({}, map[], map[]);
    NothingCollected(t);
    var todo := t.mapInfo.Keys;
    ghost var done: set<Id> := {};
    while todo != {}
      invariant done !! todo && done + todo == t.mapInfo.Keys && code == 0
      invariant CollectedOk(t, done, c)
      invariant forall id {:trigger EntryAtOk(t, {}, id)} {:trigger Found(t, id)} | id in done :: EntryAtOk(t, {}, id) && Found(t, id)
      decreases |todo|
    {
      var id :| id in todo;
      code := CheckEntry(t, id);
      EntryChecked(t, id);
      if code != 0 {
        return;
      }
      CollectStep(t, done, c, id);
      c := Collect(t, c, id);
      todo, done := todo - {id}, done + {id};
    }
    assert done == t.mapInfo.Keys;
  }

  lemma NothingCollected(t: Tables)
    ensures CollectedOk(t, {}, Collected({}, map[], map[]))
  {
  }

  /** The check of one slot of the tried table, given the ids not seen yet. */
  function CheckTriedSlot(p: Placement, t: Tables, left: set<Id>, s: Slot): int
    requires s in t.tried
  {
    var id := t.tried[s];
    if id !in left then -11
    else if id !in t.mapInfo || TriedSlot(p, t.mapInfo[id].addr).bucket != s.bucket then -17
    else if TriedSlot(p, t.mapInfo[id].addr).position != s.position then -18
    else 0
  }

  /** The slots seen hold tried entries at their places; the ids left are those of the others. */
  ghost predicate TriedSeen(p: Placement, t: Tables, left: set<Id>, done: set<Slot>) {
    && done <= t.tried.Keys && (forall s {:trigger TriedSlotOk(p, t, s)} | s in done :: TriedSlotOk(p, t, s))
    && left == TriedIds(t) - set s | s in done :: t.tried[s]
  }

  lemma TriedSlotChecked(p: Placement, t: Tables, left: set<Id>, done: set<Slot>, s: Slot)
    requires TriedSeen(p, t, left, done) && s in t.tried && s !in done
    ensures CheckTriedSlot(p, t, left, s) == 0 ==> TriedSeen(p, t, left - {t.tried[s]}, done + {s})
    ensures CheckTriedSlot(p, t, left, s) != 0 ==> !TriedOk(p, t)
  {
    hide TriedSlot;
    if CheckTriedSlot(p, t, left, s) == 0 {
      assert TriedSlotOk(p, t, s);
    }
    if TriedOk(p, t) {
      assert TriedSlotOk(p, t, s);
      forall r | r in done ensures t.tried[r] != t.tried[s] {
        assert TriedSlotOk(p, t, r);
      }
    }
  }

  lemma NoTriedSeen(p: Placement, t: Tables)
    ensures TriedSeen(p, t, TriedIds(t), {})
  {
  }

  lemma TriedAllSeen(p: Placement, t: Tables, left: set<Id>)
    requires TriedSeen(p, t, left, t.tried.Keys)
    ensures left == {} <==> TriedOk(p, t)
  {
    hide TriedSlot;
    if left == {} {
      forall id | id in t.mapInfo ensures TriedIdOk(p, t, id) {
        if t.mapInfo[id].inTried {
          assert id in TriedIds(t) && id !in left;
          var s :| s in t.tried && t.tried[s] == id;
          assert TriedSlotOk(p, t, s);
        }
      }
    }
    if TriedOk(p, t) {
      forall id | id in TriedIds(t) ensures id !in left {
        assert TriedIdOk(p, t, id);
      }
      assert left == {};
    }
  }

  /** The loop over the tried table; ids that were not seen are left. */
  method CheckTried(p: Placement, t: Tables, tried: set<Id>) returns (code: int, left: set<Id>)
    requires tried == TriedIds(t)
    ensures code != 0 ==> !TriedOk(p, t)
    ensures code == 0 ==> (left == {} <==> TriedOk(p, t))
  {
    hide TriedIds, TriedOk, TriedSeen, CheckTriedSlot;
    code, left := 0, tried;
    var todo := t.tried.Keys;
    ghost var done: set<Slot> := {};
    NoTriedSeen(p, t);
    while todo != {}
      invariant done !! todo && done + todo == t.tried.Keys && code == 0
      invariant TriedSeen(p, t, left, done)
      decreases |todo|
    {
      var s :| s in todo;
      code := CheckTriedSlot(p, t, left, s);
      TriedSlotChecked(p, t, left, done, s);
      if code != 0 {
        return;
      }
      left, todo, done := left - {t.tried[s]}, todo - {s}, done + {s};
    }
    assert done == t.tried.Keys;
    TriedAllSeen(p, t, left);
  }

  /** The check of one slot of the new table, given the references not seen yet. */
  function CheckNewSlot(p: Placement, t: Tables, refs: map<Id, int>, s: Slot): int
    requires s in t.new_
  {
    var id := t.new_[s];
    if id !in refs then -12
    else if id !in t.mapInfo || NewSlot(p, t.mapInfo[id].addr, s.bucket).position != s.position then -19
    else 0
  }

  function Unref(refs: map<Id, int>, id: Id): map<Id, int>
    requires id in refs
  {
    if refs[id] - 1 == 0 then refs - {id} else refs[id := refs[id] - 1]
  }

  /** The slots of the new table have buckets that exist. */
  ghost predicate Shaped(t: Tables) {
    forall s | s in t.new_ :: s.bucket < NEW_BUCKET_COUNT
  }

  function RefsIn(refs: map<Id, int>, id: Id): int {
    if id in refs then refs[id] else 0
  }

  ghost predicate RefsSeen(t: Tables, left: map<Id, int>, done: map<Slot, Id>, id: Id)
    requires id in t.mapInfo
  {
    t.mapInfo[id].refCount == |SlotsOf(done, id)| + RefsIn(left, id)
  }

  /** The slots seen hold new entries at their places, and the references left are those not yet seen. */
  ghost predicate NewSeen(p: Placement, t: Tables, left: map<Id, int>, done: map<Slot, Id>) {
    && (forall s | s in done :: s in t.new_ && done[s] == t.new_[s])
    && (forall s {:trigger NewSlotOk(p, t, s)} | s in done :: NewSlotOk(p, t, s))
    && (forall id | id in left :: id in NewIds(t, {}) && left[id] > 0)
    && (forall id {:trigger RefsSeen(t, left, done, id)} | id in t.mapInfo :: RefsSeen(t, left, done, id))
  }

  ghost predicate NewPartSeen(p: Placement, t: Tables, left: map<Id, int>, done: map<Slot, Id>, todo: set<Slot>) {
    NewSeen(p, t, left, done) && done.Keys !! todo && done.Keys + todo == t.new_.Keys
  }

  lemma SlotLeft(p: Placement, t: Tables, left: map<Id, int>, done: map<Slot, Id>, todo: set<Slot>, s: Slot)
    requires NewPartSeen(p, t, left, done, todo) && s in todo
    ensures NewSeen(p, t, left, done) && s in t.new_ && s !in done
  {
  }

  lemma NothingSeen(p: Placement, t: Tables, refs: map<Id, int>)
    requires EntriesOk(t, {}) && refs.Keys == NewIds(t, {}) && forall id | id in refs :: refs[id] == t.mapInfo[id].refCount
    ensures NewPartSeen(p, t, refs, map[], t.new_.Keys)
  {
    hide NewSlotOk;
    forall id | id in t.mapInfo ensures RefsSeen(t, refs, map[], id) && (id in refs ==> refs[id] > 0) {
      assert EntryAtOk(t, {}, id);
      assert SlotsOf(map[], id) == {};
    }
  }

  lemma NewSlotSeen(p: Placement, t: Tables, left: map<Id, int>, done: map<Slot, Id>, todo: set<Slot>, s: Slot)
    requires NewPartSeen(p, t, left, done, todo) && Shaped(t) && s in todo && s in t.new_ && CheckNewSlot(p, t, left, s) == 0
    ensures t.new_[s] in left && NewPartSeen(p, t, Unref(left, t.new_[s]), done[s := t.new_[s]], todo - {s})
  {
    var id := t.new_[s];
    var less, more := Unref(left, id), done[s := id];
    forall k | k in t.mapInfo ensures RefsSeen(t, less, more, k) {
      assert RefsSeen(t, left, done, k);
      SlotsMore(done, s, id, k);
    }
    assert NewSlotOk(p, t, s);
    forall r | r in more ensures NewSlotOk(p, t, r) {
    }
  }

  lemma NewSlotRefused(p: Placement, t: Tables, left: map<Id, int>, done: map<Slot, Id>, s: Slot)
    requires NewSeen(p, t, left, done) && s in t.new_ && s !in done && CheckNewSlot(p, t, left, s) != 0
    ensures !NewOk(p, t)
  {
    hide NewSlot;
    var id := t.new_[s];
    if NewOk(p, t) {
      assert NewSlotOk(p, t, s);
      assert RefsOk(t, id) && RefsSeen(t, left, done, id);
      assert SlotsOf(done, id) + {s} <= SlotsOf(t.new_, id);
      FewerSlots(SlotsOf(done, id) + {s}, SlotsOf(t.new_, id));
      assert false;
    }
  }

  lemma FewerSlots(a: set<Slot>, b: set<Slot>)
    requires a <= b
    ensures |a| <= |b|
  {
    assert b == a + (b - a);
  }

  lemma NewAllSeen(p: Placement, t: Tables, left: map<Id, int>, done: map<Slot, Id>, todo: set<Slot>)
    requires NewPartSeen(p, t, left, done, todo) && todo == {}
    ensures left == map[] <==> NewOk(p, t)
  {
    hide NewSlotOk, SlotsOf;
    assert done == t.new_;
    if left == map[] {
      forall id | id in t.mapInfo ensures RefsOk(t, id) {
        assert RefsSeen(t, left, done, id);
      }
    }
    if NewOk(p, t) {
      forall id | id in t.mapInfo ensures id !in left {
        assert RefsOk(t, id) && RefsSeen(t, left, done, id);
      }
      assert left == map[];
    }
  }

  /** The loop over the new table; references that were not seen are left. */
  method CheckNew(p: Placement, t: Tables, refs: map<Id, int>) returns (code: int, left: map<Id, int>)
    requires Shaped(t) && EntriesOk(t, {})
    requires refs.Keys == NewIds(t, {}) && forall id | id in refs :: refs[id] == t.mapInfo[id].refCount
    ensures code != 0 ==> !NewOk(p, t)
    ensures code == 0 ==> (left == map[] <==> NewOk(p, t))
  {
    hide NewIds, NewOk, NewPartSeen, CheckNewSlot, Unref, EntriesOk, Shaped;
    code, left := 0, refs;
    var todo := t.new_.Keys;
    ghost var done: map<Slot, Id> := map[];
    NothingSeen(p, t, refs);
    while todo != {}
      invariant NewPartSeen(p, t, left, done, todo) && code == 0
      decreases |todo|
    {
      var s :| s in todo;
      SlotLeft(p, t, left, done, todo, s);
      code := CheckNewSlot(p, t, left, s);
      if code != 0 {
        NewSlotRefused(p, t, left, done, s);
        return;
      }
      NewSlotSeen(p, t, left, done, todo, s);
      left, todo, done := Unref(left, t.new_[s]), todo - {s}, done[s := t.new_[s]];
    }
    NewAllSeen(p, t, left, done, todo);
  }

  /** The counters that exist are exact, and there are at least as many as there are networks. */
  ghost predicate CountersMatch(t: Tables) {
    && |t.counts| >= |Networks(t, t.mapInfo.Keys)|
    && forall n | n in t.counts :: t.counts[n] == LocalCounts(t, t.mapInfo.Keys, n)
  }

  lemma CountersChecked(t: Tables, counts: map<nat, Counts>, n: nat)
    requires CountsCollected(t, t.mapInfo.Keys, counts)
    ensures LocalCounts(t, t.mapInfo.Keys, n) == if n in counts then counts[n] else Counts(0, 0)
  {
    hide LocalCounts;
    if n !in counts {
      NoneLocal(t, t.mapInfo.Keys, n);
    }
  }

  /** What the check looks at. */
  ghost predicate Passes(p: Placement, t: Tables) {
    && |t.random| == |t.mapInfo| && AllFound(t) && EntriesOk(t, {}) && TriedOk(p, t) && NewOk(p, t)
    && t.nNew == |NewIds(t, {})| && t.nTried == |TriedIds(t)| && CountersMatch(t)
  }

  /** The consistency check returns zero exactly if everything it looks at is right. */
  method CheckAddrman(p: Placement, t: Tables, keyIsNull: bool) returns (code: int)
    requires Shaped(t)
    ensures code == 0 <==> Passes(p, t) && !keyIsNull
  {
    hide CollectedOk, AllFound, EntriesOk, TriedOk, NewOk, NewIds, TriedIds, LocalCounts, Networks, CountsCollected;
    Partition(t);
    if |t.random| != t.nTried + t.nNew {
      return -7;
    }
    var c;
    code, c := CheckEntries(t);
    if code != 0 {
      return;
    }
    AllCollected(t, c);
    if |c.tried| != t.nTried {
      return -9;
    }
    if |c.refs| != t.nNew {
      return -10;
    }
    var leftTried, leftNew;
    code, leftTried := CheckTried(p, t, c.tried);
    if code != 0 {
      return;
    }
    code, leftNew := CheckNew(p, t, c.refs);
    if code != 0 {
      return;
    }
    if leftTried != {} {
      return -13;
    }
    if leftNew != map[] {
      return -15;
    }
    if keyIsNull {
      return -16;
    }
    forall n ensures LocalCounts(t, t.mapInfo.Keys, n) == if n in c.counts then c.counts[n] else Counts(0, 0) {
      CountersChecked(t, c.counts, n);
    }
    if |t.counts| < |c.counts| {
      return -20;
    }
    if n :| n in t.counts && t.counts[n] != if n in c.counts then c.counts[n] else Counts(0, 0) {
      return -21;
    }
  }

  lemma AllCollected(t: Tables, c: Collected)
    requires CollectedOk(t, t.mapInfo.Keys, c)
    ensures c.tried == TriedIds(t) && c.refs.Keys == NewIds(t, {}) && |c.refs| == |c.refs.Keys|
    ensures (forall id | id in c.refs :: c.refs[id] == t.mapInfo[id].refCount) && CountsCollected(t, t.mapInfo.Keys, c.counts)
    ensures |c.counts| == |Networks(t, t.mapInfo.Keys)|
  {
    assert TriedIds(t) * t.mapInfo.Keys == TriedIds(t) && NewIds(t, {}) * t.mapInfo.Keys == NewIds(t, {});
    assert |c.counts| == |c.counts.Keys|;
  }

  lemma Partition(t: Tables)
    ensures t.mapInfo.Keys == TriedIds(t) + NewIds(t, {}) && TriedIds(t) !! NewIds(t, {})
    ensures |t.mapInfo.Keys| == |TriedIds(t)| + |NewIds(t, {})|
  {
  }

  // ----- what the check does not look at

  /** Ids were given out, the address index has no further addresses, and every network has its counter. */
  ghost predicate Unchecked(t: Tables) {
    && (forall id | id in t.mapInfo :: id < t.idCount)
    && (forall a {:trigger AddrIndexed(t, a)} | a in t.mapAddr :: AddrIndexed(t, a))
    && Networks(t, t.mapInfo.Keys) <= t.counts.Keys
  }

  lemma {:induction false} NoMoreIds(s: seq<Id>, ids: set<Id>)
    requires forall id | id in ids :: id in s
    ensures |ids| <= |s|
    decreases |s|
  {
    if s == [] {
      assert ids == {};
    } else {
      var last := s[|s| - 1];
      forall id | id in ids - {last} ensures id in s[..|s| - 1] {
        var i :| 0 <= i < |s| && s[i] == id;
        assert s[..|s| - 1][i] == id;
      }
      NoMoreIds(s[..|s| - 1], ids - {last});
    }
  }

  lemma Elsewhere(s: seq<Id>, ids: set<Id>, i: nat)
    requires i < |s| && forall id | id in ids :: exists k | 0 <= k < |s| && k != i :: s[k] == id
    ensures |ids| < |s|
  {
    var without := s[..i] + s[i + 1..];
    forall id | id in ids ensures id in without {
      var k :| 0 <= k < |s| && k != i && s[k] == id;
      assert id == without[if k < i then k else k - 1];
    }
    NoMoreIds(without, ids);
  }

  /** A list no longer than the set of ids in it has each of them once, and nothing else. */
  lemma EachOnce(s: seq<Id>, ids: set<Id>, i: nat, j: nat)
    requires |ids| == |s| && (forall id | id in ids :: id in s) && i <= j < |s|
    ensures s[i] in ids && (s[i] == s[j] ==> i == j)
  {
    if s[i] !in ids || (s[i] == s[j] && i < j) {
      forall id | id in ids ensures exists k | 0 <= k < |s| && k != i :: s[k] == id {
        var k :| 0 <= k < |s| && s[k] == id;
        var other := if k == i then j else k;
        assert s[other] == id;
      }
      Elsewhere(s, ids, i);
    }
  }

  lemma PositionsMatch(t: Tables, i: nat)
    requires AllFound(t) && |t.random| == |t.mapInfo| && i < |t.random|
    ensures RandomIndexed(t, i)
  {
    var ids := t.mapInfo.Keys;
    assert |ids| == |t.random|;
    forall id | id in ids ensures id in t.random {
      assert Found(t, id);
    }
    EachOnce(t.random, ids, i, i);
    var at := t.mapInfo[t.random[i]].randomPos;
    assert Found(t, t.random[i]);
    if at <= i {
      EachOnce(t.random, ids, at, i);
    } else {
      EachOnce(t.random, ids, i, at);
    }
  }

  lemma AllWithin(t: Tables)
    ensures NewIds(t, {}) * t.mapInfo.Keys == NewIds(t, {}) && TriedIds(t) * t.mapInfo.Keys == TriedIds(t)
  {
  }

  lemma CountersAre(t: Tables)
    requires t.nNew == |NewIds(t, {})| && t.nTried == |TriedIds(t)|
    ensures CountsOk(t, {}) <==> CountersMatch(t) && Networks(t, t.mapInfo.Keys) <= t.counts.Keys
  {
    hide NewIds, TriedIds, Within, Networks, LocalCounts;
    if CountsOk(t, {}) {
      CountersExact(t);
    }
    if CountersMatch(t) && Networks(t, t.mapInfo.Keys) <= t.counts.Keys {
      forall n ensures CountOf(t, n) == Counts(|Within(t, NewIds(t, {}), n)|, |Within(t, TriedIds(t), n)|) {
        CounterIs(t, n);
      }
    }
  }

  lemma LocalIs(t: Tables, n: nat)
    ensures LocalCounts(t, t.mapInfo.Keys, n) == Counts(|Within(t, NewIds(t, {}), n)|, |Within(t, TriedIds(t), n)|)
  {
    hide NewIds, TriedIds, Within;
    AllWithin(t);
  }

  lemma CounterIs(t: Tables, n: nat)
    requires CountersMatch(t) && Networks(t, t.mapInfo.Keys) <= t.counts.Keys
    ensures CountOf(t, n) == Counts(|Within(t, NewIds(t, {}), n)|, |Within(t, TriedIds(t), n)|)
  {
    hide NewIds, TriedIds, Within, Networks, LocalCounts;
    LocalIs(t, n);
    if n !in t.counts {
      NoneLocal(t, t.mapInfo.Keys, n);
    }
  }

  lemma CountersExact(t: Tables)
    requires CountsOk(t, {})
    ensures CountersMatch(t) && Networks(t, t.mapInfo.Keys) <= t.counts.Keys
  {
    hide NewIds, TriedIds, Within, Networks, LocalCounts;
    var ids := t.mapInfo.Keys;
    forall n | n in Networks(t, ids) ensures n in t.counts {
      Present(t, n);
    }
    Fewer(Networks(t, ids), t.counts.Keys);
    assert |t.counts| == |t.counts.Keys|;
    forall n | n in t.counts ensures t.counts[n] == LocalCounts(t, ids, n) {
      LocalIs(t, n);
      assert CountOf(t, n) == t.counts[n];
    }
  }

  /** The check passes exactly on the consistent states, but for what it does not look at. */
  lemma ConsistentIffPasses(p: Placement, t: Tables)
    ensures Consistent(p, t) <==> Passes(p, t) && Unchecked(t)
  {
    hide EntriesOk, TriedOk, NewOk, NewIds, TriedIds, CountersMatch, Networks, AddrIndexed;
    var none: set<Id> := {};
    assert none + none == none;
    if t.nNew == |NewIds(t, {})| && t.nTried == |TriedIds(t)| {
      CountersAre(t);
    }
    if Consistent(p, t) {
      forall id | id in t.mapInfo ensures Found(t, id) && id < t.idCount {
        assert Indexed(t, id);
      }
    }
    if Passes(p, t) && Unchecked(t) {
      forall id | id in t.mapInfo ensures Indexed(t, id) {
        assert Found(t, id);
      }
      forall i: nat | i < |t.random| ensures RandomIndexed(t, i) {
        PositionsMatch(t, i);
      }
    }
  }

  /** A consistent state passes the check. */
  lemma ConsistentPasses(p: Placement, t: Tables)
    requires Consistent(p, t)
    ensures Shaped(t) && Passes(p, t)
  {
    ConsistentIffPasses(p, t);
    forall s | s in t.new_ ensures s.bucket < NEW_BUCKET_COUNT {
      assert NewSlotOk(p, t, s);
    }
  }

  /** One network's counter is gone, and another one without entries has a counter. */
  function Misplaced(counts: map<nat, Counts>, n: nat, m: nat): map<nat, Counts> {
    counts - {n} + map[m := Counts(0, 0)]
  }

  /** A network without its counter goes unnoticed if another one has a counter and no entry. */
  lemma MissedCounter(p: Placement, t: Tables, n: nat, m: nat)
    requires Consistent(p, t) && n in t.counts && t.counts[n] != Counts(0, 0) && m !in t.counts
    ensures var u := t.(counts := Misplaced(t.counts, n, m));
            Passes(p, u) && !Consistent(p, u)
  {
    hide Passes, Unchecked, Consistent;
    var u := t.(counts := Misplaced(t.counts, n, m));
    ConsistentIffPasses(p, t);
    ConsistentIffPasses(p, u);
    StillPasses(p, t, u, n, m);
  }

  lemma StillPasses(p: Placement, t: Tables, u: Tables, n: nat, m: nat)
    requires Passes(p, t) && Unchecked(t) && n in t.counts && t.counts[n] != Counts(0, 0) && m !in t.counts
    requires u == t.(counts := Misplaced(t.counts, n, m))
    ensures Passes(p, u) && !Unchecked(u)
  {
    hide EntriesOk, TriedOk, NewOk, AllFound, CountersMatch, Networks, NewIds, TriedIds, AddrIndexed;
    OtherwiseSame(p, t, u);
    CounterMoved(t, u, n, m);
  }

  lemma OtherwiseSame(p: Placement, t: Tables, u: Tables)
    requires AllFound(t) && EntriesOk(t, {}) && TriedOk(p, t) && NewOk(p, t) && u == t.(counts := u.counts)
    ensures AllFound(u) && EntriesOk(u, {}) && TriedOk(p, u) && NewOk(p, u)
    ensures NewIds(u, {}) == NewIds(t, {}) && TriedIds(u) == TriedIds(t)
  {
    TriedSame(p, t, u);
    NewSame(p, t, u);
    forall id | id in t.mapInfo ensures Found(u, id) && EntryAtOk(u, {}, id) {
      assert Found(t, id) && EntryAtOk(t, {}, id);
    }
  }

  lemma CounterMoved(t: Tables, u: Tables, n: nat, m: nat)
    requires CountersMatch(t) && Networks(t, t.mapInfo.Keys) <= t.counts.Keys
    requires n in t.counts && t.counts[n] != Counts(0, 0) && m !in t.counts
    requires u == t.(counts := Misplaced(t.counts, n, m))
    ensures CountersMatch(u) && n in Networks(u, u.mapInfo.Keys) && n !in u.counts
  {
    hide LocalCounts, Networks;
    var ids := t.mapInfo.Keys;
    if n !in Networks(t, ids) {
      NoneLocal(t, ids, n);
      assert false;
    }
    SameSize(t.counts, n, m);
    SameLocal(t, u, ids, n);
    forall k | k in u.counts ensures u.counts[k] == LocalCounts(u, ids, k) {
      CounterStays(t, u, n, m, k);
    }
  }

  lemma CounterStays(t: Tables, u: Tables, n: nat, m: nat, k: nat)
    requires CountersMatch(t) && Networks(t, t.mapInfo.Keys) <= t.counts.Keys && m !in t.counts
    requires u == t.(counts := Misplaced(t.counts, n, m)) && k in u.counts
    ensures u.counts[k] == LocalCounts(u, t.mapInfo.Keys, k)
  {
    hide LocalCounts, Networks;
    SameLocal(t, u, t.mapInfo.Keys, k);
    if k == m {
      NoneLocal(t, t.mapInfo.Keys, m);
    }
  }

  lemma SameSize(counts: map<nat, Counts>, n: nat, m: nat)
    requires n in counts && m !in counts
    ensures |Misplaced(counts, n, m)| == |counts|
  {
    var replaced := Misplaced(counts, n, m);
    assert replaced.Keys == counts.Keys - {n} + {m};
    assert |replaced| == |replaced.Keys| && |counts| == |counts.Keys|;
  }

  lemma SameLocal(t: Tables, u: Tables, ids: set<Id>, k: nat)
    requires u.mapInfo == t.mapInfo
    ensures LocalCounts(u, ids, k) == LocalCounts(t, ids, k) && Networks(u, ids) == Networks(t, ids)
  {
    assert NewIds(u, {}) == NewIds(t, {}) && TriedIds(u) == TriedIds(t);
    assert Within(u, NewIds(t, {}) * ids, k) == Within(t, NewIds(t, {}) * ids, k);
    assert Within(u, TriedIds(t) * ids, k) == Within(t, TriedIds(t) * ids, k);
  }

  /** A network that has an entry has a counter. */
  lemma Present(t: Tables, n: nat)
    requires CountsOk(t, {}) && n in Networks(t, t.mapInfo.Keys)
    ensures n in t.counts
  {
    var id :| id in t.mapInfo && t.mapInfo[id].addr.network == n;
    assert id in Within(t, NewIds(t, {}), n) || id in Within(t, TriedIds(t), n);
    assert CountOf(t, n) != Counts(0, 0);
  }

  lemma Fewer(a: set<nat>, b: set<nat>)
    requires a <= b
    ensures |a| <= |b|
  {
    assert b == a + (b - a);
  }
}
